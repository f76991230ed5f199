// applyMigrationResult of slabs/migrations.go on the rows of one slab, and what a reported success
// leaves to do. Every store call may fail.
module MigrationResults {
  import opened Common
  import opened Placement

  // What MigrateSlab reports.
  datatype Report = Report(migrated: seq<Shard>, lost: seq<Shard>, recovered: bool, success: bool)

  // The sector is on the host that reported it lost.
  predicate IsLost(sectors: seq<Sector>, lost: set<Shard>, i: nat)
    requires i < |sectors|
  {
    sectors[i].host.Some? && Shard(sectors[i].root, sectors[i].host.value) in lost
  }

  // A lost sector has no host and no contract.
  function LoseAll(sectors: seq<Sector>, lost: set<Shard>): (r: seq<Sector>)
    ensures |r| == |sectors|
  {
    seq(|sectors|, i requires 0 <= i < |sectors| => if IsLost(sectors, lost, i) then Sector(sectors[i].root, None, None) else sectors[i])
  }

  function OnHosts(lost: seq<Shard>, hosts: set<HostKey>): set<Shard> {
    set s | s in lost && s.host in hosts
  }

  // a is b with some of its elements left out.
  predicate PartOf(a: seq<Shard>, b: seq<Shard>) {
    |a| <= |b| && (|a| == |b| ==> a == b) && forall s :: s in a ==> s in b
  }

  class SlabStore {
    var sectors: seq<Sector>
    var hosts: set<HostKey>
    var slabExists: bool
    var failedRepairs: nat // consecutive

    method MarkSectorsLost(host: HostKey, roots: set<Root>) returns (ok: bool)
      modifies this`sectors
      ensures sectors == if ok then LoseAll(old(sectors), LostAt(host, roots)) else old(sectors)
    {
      ok := *;
      if ok {
        sectors := LoseAll(sectors, LostAt(host, roots));
      }
    }

    // A missing sector or destination host makes this a no-op.
    method Migrate(s: Shard) returns (migrated: Result<bool, ()>)
      modifies this`sectors
      ensures sectors == if migrated == Ok(true) then MigrateSector(old(sectors), s) else old(sectors)
      ensures migrated.Ok? ==> (migrated.value <==> s.host in hosts && HasRoot(old(sectors), s.root))
    {
      var fails: bool := *;
      if fails {
        return Err(());
      }
      if s.host !in hosts || !HasRoot(sectors, s.root) {
        return Ok(false);
      }
      sectors := MigrateSector(sectors, s);
      return Ok(true);
    }

    method MarkSlabRepaired(success: bool) returns (ok: bool)
      modifies this`failedRepairs
      ensures failedRepairs == if !ok || !slabExists then old(failedRepairs) else if success then 0 else old(failedRepairs) + 1
    {
      ok := *;
      if ok && slabExists {
        failedRepairs := if success then 0 else failedRepairs + 1;
      }
    }
  }

  function LostAt(host: HostKey, roots: set<Root>): set<Shard> {
    set r | r in roots :: Shard(r, host)
  }

  predicate HasRoot(sectors: seq<Sector>, root: Root) {
    exists i :: 0 <= i < |sectors| && sectors[i].root == root
  }

  function RootsAt(lost: seq<Shard>, host: HostKey): set<Root> {
    set s | s in lost && s.host == host :: s.root
  }

  lemma LoseTwice(sectors: seq<Sector>, a: set<Shard>, b: set<Shard>)
    ensures LoseAll(LoseAll(sectors, a), b) == LoseAll(sectors, a + b)
  {
  }

  lemma OneMoreHost(lost: seq<Shard>, hosts: set<HostKey>, host: HostKey)
    ensures OnHosts(lost, hosts + {host}) == OnHosts(lost, hosts) + LostAt(host, RootsAt(lost, host))
  {
    forall s | s in OnHosts(lost, hosts + {host}) ensures s in OnHosts(lost, hosts) + LostAt(host, RootsAt(lost, host)) {
      if s.host == host {
        assert s.root in RootsAt(lost, host) && s == Shard(s.root, host);
      }
    }
  }

  // Lost sectors are grouped by host and marked in one call each, in any order.
  method PersistLost(store: SlabStore, lost: seq<Shard>) returns (failed: bool, ghost marked: set<HostKey>)
    modifies store`sectors
    ensures store.sectors == LoseAll(old(store.sectors), OnHosts(lost, marked))
    ensures !failed ==> forall s :: s in lost ==> s.host in marked
  {
    failed, marked := false, {};
    var lostByHost: map<HostKey, set<Root>> := map[];
    for i := 0 to |lost|
      invariant forall h :: h in lostByHost <==> exists s :: s in lost[..i] && s.host == h
      invariant forall h :: h in lostByHost ==> lostByHost[h] == RootsAt(lost[..i], h)
    {
      var s := lost[i];
      assert lost[..i + 1] == lost[..i] + [s];
      var roots := if s.host in lostByHost then lostByHost[s.host] else {};
      lostByHost := lostByHost[s.host := roots + {s.root}];
    }
    assert lost[..|lost|] == lost;
    var rest := lostByHost.Keys;
    assert LoseAll(store.sectors, OnHosts(lost, {})) == store.sectors;
    while rest != {}
      invariant rest <= lostByHost.Keys
      invariant store.sectors == LoseAll(old(store.sectors), OnHosts(lost, marked))
      invariant !failed ==> lostByHost.Keys - rest <= marked
      decreases rest
    {
      var host :| host in rest;
      ghost var before := store.sectors;
      var ok := store.MarkSectorsLost(host, lostByHost[host]);
      if ok {
        OneMoreHost(lost, marked, host);
        LoseTwice(old(store.sectors), OnHosts(lost, marked), LostAt(host, RootsAt(lost, host)));
        marked := marked + {host};
      } else {
        failed := true;
      }
      rest := rest - {host};
    }
    if !failed {
      forall s | s in lost ensures s.host in marked {
        assert s.host in lostByHost;
      }
    }
  }

  // The shards whose sector and destination host still exist.
  function Applicable(migrated: seq<Shard>, sectors: seq<Sector>, hosts: set<HostKey>): seq<Shard> {
    if migrated == [] then []
    else
      var n := |migrated| - 1;
      var before := Applicable(migrated[..n], sectors, hosts);
      if migrated[n].host in hosts && HasRoot(sectors, migrated[n].root) then before + [migrated[n]] else before
  }

  ghost predicate SameRoots(a: seq<Sector>, b: seq<Sector>) {
    |a| == |b| && forall i :: 0 <= i < |a| ==> a[i].root == b[i].root
  }

  lemma SameRootsHas(a: seq<Sector>, b: seq<Sector>, root: Root)
    requires SameRoots(a, b)
    ensures HasRoot(a, root) <==> HasRoot(b, root)
  {
    if i :| 0 <= i < |a| && a[i].root == root {
      assert b[i].root == root;
    }
  }

  // Each migrated shard is recorded on its own; what could not be recorded is left out. Without an error
  // exactly the applicable ones are recorded.
  method PersistMigrated(store: SlabStore, migrated: seq<Shard>) returns (failed: bool, count: nat, ghost persisted: seq<Shard>)
    modifies store`sectors
    ensures store.sectors == MigrateAll(old(store.sectors), persisted)
    ensures PartOf(persisted, migrated) && count == |persisted|
    ensures !failed ==> persisted == Applicable(migrated, old(store.sectors), store.hosts)
  {
    failed, count, persisted := false, 0, [];
    for i := 0 to |migrated|
      invariant store.sectors == MigrateAll(old(store.sectors), persisted)
      invariant PartOf(persisted, migrated[..i]) && count == |persisted|
      invariant SameRoots(store.sectors, old(store.sectors))
      invariant !failed ==> persisted == Applicable(migrated[..i], old(store.sectors), store.hosts)
    {
      var s := migrated[i];
      assert migrated[..i + 1] == migrated[..i] + [s] && migrated[..i + 1][..i] == migrated[..i];
      SameRootsHas(store.sectors, old(store.sectors), s.root);
      var r := store.Migrate(s);
      if r.Err? {
        failed := true;
      } else if r.value {
        assert (persisted + [s])[..|persisted|] == persisted;
        persisted := persisted + [s];
        count := count + 1;
      }
    }
    assert migrated[..|migrated|] == migrated;
  }

  lemma {:induction false} ApplicableByRoots(migrated: seq<Shard>, a: seq<Sector>, b: seq<Sector>, hosts: set<HostKey>)
    requires SameRoots(a, b)
    ensures Applicable(migrated, a, hosts) == Applicable(migrated, b, hosts)
  {
    if migrated != [] {
      ApplicableByRoots(migrated[..|migrated| - 1], a, b, hosts);
      SameRootsHas(a, b, migrated[|migrated| - 1].root);
    }
  }

  // The failure count is reset only by a reported success of which every shard was recorded.
  method ApplyMigrationResult(store: SlabStore, res: Report) returns (failed: bool, ghost marked: set<HostKey>, ghost persisted: seq<Shard>)
    modifies store
    ensures PartOf(persisted, res.migrated)
    ensures store.sectors == MigrateAll(LoseAll(old(store.sectors), OnHosts(res.lost, marked)), persisted)
    ensures !failed ==> forall s :: s in res.lost ==> s.host in marked
    ensures !failed && res.recovered ==> persisted == Applicable(res.migrated, old(store.sectors), store.hosts)
    ensures !res.recovered ==> persisted == [] && store.failedRepairs == old(store.failedRepairs)
    ensures store.failedRepairs < old(store.failedRepairs) ==>
      res.recovered && res.success && persisted == res.migrated && store.failedRepairs == 0
    ensures !failed && res.recovered && old(store.slabExists) ==>
      store.failedRepairs == if res.success && persisted == res.migrated then 0 else old(store.failedRepairs) + 1
    ensures store.hosts == old(store.hosts) && store.slabExists == old(store.slabExists)
  {
    failed, marked := PersistLost(store, res.lost);
    persisted := [];
    if !res.recovered {
      return;
    }
    var migrateFailed, count;
    migrateFailed, count, persisted := PersistMigrated(store, res.migrated);
    ApplicableByRoots(res.migrated, LoseAll(old(store.sectors), OnHosts(res.lost, marked)), old(store.sectors), store.hosts);
    var success := res.success && count == |res.migrated|;
    var ok := store.MarkSlabRepaired(success);
    failed := failed || migrateFailed || !ok;
  }

  // --- what is left to do ---

  // b is a with some sectors taken off their hosts.
  ghost predicate OnlyLoses(a: seq<Sector>, b: seq<Sector>) {
    |a| == |b| && forall j :: 0 <= j < |a| ==> b[j] == a[j] || (b[j].host.None? && b[j].contract.None?)
  }

  lemma LosingHelpsOthers(a: seq<Sector>, b: seq<Sector>, state: State, i: nat)
    requires OnlyLoses(a, b) && i < |a| && b[i] == a[i]
    requires forall j: nat :: j < |a| ==> HostOk(a, state, j)
    requires !NeedsMigration(a, state, i)
    ensures !NeedsMigration(b, state, i)
  {
    var k := a[i].host.value;
    forall j: nat | j < i ensures !OnHost(b, j, k) {
      assert !OnHost(a, j, k);
    }
    if a[i].contract.Some? {
      var id := a[i].contract.value;
      forall j: nat | j < i ensures !UsesContract(b, state, j, id) {
        assert !UsesContract(a, state, j, id);
        assert HostOk(a, state, j);
      }
    }
  }

  lemma LostThenMigrated(sectors: seq<Sector>, state: State, migrated: seq<Shard>, lost: set<Shard>, i: nat)
    requires DistinctRoots(sectors) && FullSuccess(sectors, state, migrated) && i < |sectors|
    ensures
      var a, b := MigrateAll(sectors, migrated), MigrateAll(LoseAll(sectors, lost), migrated);
      b[i] == if IsLost(sectors, lost, i) && !HasShard(migrated, sectors[i].root) then Sector(sectors[i].root, None, None) else a[i]
  {
    MigrateAllAt(sectors, migrated, i);
    MigrateAllAt(LoseAll(sectors, lost), migrated, i);
  }

  // After a recorded success the same state asks to migrate exactly the sectors that were lost during
  // the recovery and are not among the migrated ones.
  lemma SuccessLeavesExactlyTheLost(sectors: seq<Sector>, state: State, migrated: seq<Shard>, lost: set<Shard>, i: nat)
    requires DistinctRoots(sectors) && FullSuccess(sectors, state, migrated) && i < |sectors|
    ensures NeedsMigration(MigrateAll(LoseAll(sectors, lost), migrated), state, i) <==>
      IsLost(sectors, lost, i) && !HasShard(migrated, sectors[i].root)
  {
    var a, b := MigrateAll(sectors, migrated), MigrateAll(LoseAll(sectors, lost), migrated);
    forall j: nat | j < |sectors|
      ensures HostOk(a, state, j) && (b[j] == a[j] || b[j] == Sector(sectors[j].root, None, None))
    {
      HostOkAfter(sectors, state, migrated, j);
      LostThenMigrated(sectors, state, migrated, lost, j);
    }
    LostThenMigrated(sectors, state, migrated, lost, i);
    if !(IsLost(sectors, lost, i) && !HasShard(migrated, sectors[i].root)) {
      ReplanningAsksNothing(sectors, state, migrated, i);
      LosingHelpsOthers(a, b, state, i);
    }
  }
}
