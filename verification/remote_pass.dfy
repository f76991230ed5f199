// The result collector of RemoteMigrator.runPass in slabs/remote.go, the backoff of Run, and the
// host cache it clears between passes.
module RemotePass {
  import opened Common

  const REPORT_GROUP_SIZE := 100
  const MAX_BACKOFF_SHIFT := 5

  // sectors is the number of sectors the slab's migration moved.
  datatype MigrationResult = MigrationResult(slab: nat, sectors: nat)
  type Group = seq<MigrationResult>

  // The select choices of the collector: a result arrived, a report finished, the ticker fired.
  datatype Choice = Receive | ReportDone(ok: bool) | Tick

  function Sectors(results: seq<MigrationResult>): nat {
    if results == [] then 0 else Sectors(results[..|results| - 1]) + results[|results| - 1].sectors
  }

  // Everything in the groups reported so far, in order.
  function Offered(groups: seq<Group>): seq<MigrationResult> {
    if groups == [] then [] else Offered(groups[..|groups| - 1]) + groups[|groups| - 1]
  }

  // The sectors of the groups whose report succeeded; outcomes[i] belongs to groups[i].
  function Persisted(groups: seq<Group>, outcomes: seq<bool>): nat
    requires |outcomes| <= |groups|
  {
    if outcomes == [] then 0
    else
      var n := |outcomes| - 1;
      Persisted(groups, outcomes[..n]) + (if outcomes[n] then Sectors(groups[n]) else 0)
  }

  lemma {:induction false} PersistedIgnoresNewGroup(groups: seq<Group>, outcomes: seq<bool>, g: Group)
    requires |outcomes| <= |groups|
    ensures Persisted(groups + [g], outcomes) == Persisted(groups, outcomes)
  {
    if outcomes != [] {
      PersistedIgnoresNewGroup(groups, outcomes[..|outcomes| - 1], g);
    }
  }

  // The collector's variables, with the primary's side of the reports.
  class Collector {
    var executed: nat
    var migrated: nat
    var pending: seq<MigrationResult>
    var reporting: bool
    var inFlightSectors: nat
    var reportErr: bool
    ghost var received: seq<MigrationResult>
    var groups: seq<Group>  // what the primary was sent
    var outcomes: seq<bool> // what it answered

    ghost predicate Valid()
      reads this
    {
      // each received result is pending or was offered once, in arrival order
      && executed == |received| && Offered(groups) + pending == received
      && (forall g :: g in groups ==> g != [])
      // one report in flight at most, and it is the last one started
      && |groups| == |outcomes| + (if reporting then 1 else 0)
      && (reporting ==> inFlightSectors == Sectors(groups[|groups| - 1]))
      && migrated == Persisted(groups, outcomes)
      && (reportErr <==> false in outcomes)
    }

    constructor ()
      ensures Valid() && received == [] && groups == [] && outcomes == [] && !reportErr
    {
      executed, migrated, pending, reporting, inFlightSectors, reportErr := 0, 0, [], false, 0, false;
      received, groups, outcomes := [], [], [];
    }

    // startReport: hand everything pending to a new report, unless one is in flight or one failed.
    method StartReport()
      requires Valid()
      modifies this
      ensures Valid() && received == old(received) && outcomes == old(outcomes) && reportErr == old(reportErr)
      ensures groups == old(groups) + (if old(pending != [] && !reporting && !reportErr) then [old(pending)] else [])
    {
      if |pending| == 0 || reporting || reportErr {
        return;
      }
      Launch(pending);
      inFlightSectors := Sectors(pending);
      pending, reporting := [], true;
    }

    // The group is sent to the primary.
    method Launch(group: Group)
      modifies this`groups
      requires |outcomes| <= |groups|
      ensures groups == old(groups) + [group]
      ensures Offered(groups) == old(Offered(groups)) + group
      ensures |outcomes| <= old(|groups|) && Persisted(groups, outcomes) == old(Persisted(groups, outcomes))
    {
      PersistedIgnoresNewGroup(groups, outcomes, group);
      assert (groups + [group])[..|groups|] == groups;
      groups := groups + [group];
    }

    // finishReport: the report in flight ends.
    method FinishReport(ok: bool)
      requires Valid() && reporting
      modifies this
      ensures Valid() && !reporting && received == old(received) && groups == old(groups) && pending == old(pending)
      ensures outcomes == old(outcomes) + [ok] && (reportErr <==> old(reportErr) || !ok)
    {
      assert (outcomes + [ok])[..|outcomes|] == outcomes;
      reporting := false;
      outcomes := outcomes + [ok];
      if !ok {
        reportErr := true;
        return;
      }
      migrated := migrated + inFlightSectors;
    }

    // One result arrives.
    method ReceiveResult(res: MigrationResult)
      requires Valid()
      modifies this
      ensures Valid() && received == old(received) + [res] && outcomes == old(outcomes) && reportErr == old(reportErr)
      ensures groups == old(groups) || (groups == old(groups) + [old(pending) + [res]] && !reportErr)
    {
      executed := executed + 1;
      pending := pending + [res];
      received := received + [res];
      if |pending| >= REPORT_GROUP_SIZE {
        StartReport();
      }
    }

    // After the channel is closed: wait for the report in flight, then offer the remainder once, even
    // after a failure.
    method Drain(inFlightOk: bool, lastOk: bool)
      requires Valid()
      modifies this
      ensures Valid() && !reporting && pending == [] && received == old(received)
      ensures old(groups) <= groups && |groups| <= |old(groups)| + 1 && old(outcomes) <= outcomes
    {
      if reporting {
        FinishReport(inFlightOk);
      }
      if |pending| > 0 {
        var group := pending;
        Launch(group);
        pending := [];
        assert (outcomes + [lastOk])[..|outcomes|] == outcomes;
        outcomes := outcomes + [lastOk];
        if lastOk {
          migrated := migrated + Sectors(group);
        } else {
          reportErr := true;
        }
      }
    }
  }

  // Reports are started only while every earlier one succeeded, apart from the final flush.
  ghost predicate StopsAfterFailure(outcomes: seq<bool>) {
    forall i :: 0 <= i < |outcomes| - 2 ==> outcomes[i]
  }

  // One pass over the results, in the order the workers hand them over. script is any sequence of
  // select choices with any outcome for every report; once it has run out the remaining results
  // arrive and the channel closes.
  method RunPass(results: seq<MigrationResult>, script: seq<Choice>, inFlightOk: bool, lastOk: bool)
    returns (executed: nat, migrated: nat, failed: bool, groups: seq<Group>, outcomes: seq<bool>)
    // every result is counted, and offered to the primary exactly once and in arrival order
    ensures executed == |results|
    ensures Offered(groups) == results && |outcomes| == |groups| && forall g :: g in groups ==> g != []
    // exactly the persisted groups count as migrated
    ensures migrated == Persisted(groups, outcomes)
    ensures failed <==> false in outcomes
    ensures StopsAfterFailure(outcomes)
  {
    var c := new Collector();
    var t, next := 0, 0;
    while true
      invariant fresh(c) && c.Valid() && next <= |results| && t <= |script|
      invariant c.received == results[..next]
      invariant forall i :: 0 <= i < |c.outcomes| - 1 ==> c.outcomes[i]
      invariant c.reportErr ==> !c.reporting && |c.outcomes| > 0 && !c.outcomes[|c.outcomes| - 1]
      decreases |script| - t, |results| - next
    {
      var choice := if t < |script| then script[t] else Receive;
      t := Min(t + 1, |script|);
      match choice {
        case Receive =>
          if next == |results| {
            break;
          }
          c.ReceiveResult(results[next]);
          next := next + 1;
        case ReportDone(ok) =>
          if c.reporting {
            c.FinishReport(ok);
            c.StartReport();
          }
        case Tick =>
          c.StartReport();
      }
    }
    c.Drain(inFlightOk, lastOk);
    executed, migrated, failed := c.executed, c.migrated, c.reportErr;
    groups, outcomes := c.groups, c.outcomes;
  }

  // --- the pause between passes ---

  datatype Pass = Pass(executed: nat, migrated: nat) {
    predicate Productive() {
      executed > 0 && migrated > 0
    }

    predicate Fruitless() {
      executed > 0 && migrated == 0
    }
  }

  // The fruitless passes since the last productive one; passes that attempted nothing do not count.
  function FailedPasses(passes: seq<Pass>): nat {
    if passes == [] then 0
    else
      var last := passes[|passes| - 1];
      if last.Productive() then 0 else FailedPasses(passes[..|passes| - 1]) + (if last.Fruitless() then 1 else 0)
  }

  function Fruitless(passes: seq<Pass>): nat {
    if passes == [] then 0
    else Fruitless(passes[..|passes| - 1]) + (if passes[|passes| - 1].Fruitless() then 1 else 0)
  }

  // One productive pass wipes the slate clean: only what came after it counts.
  lemma {:induction false} ProgressResetsBackoff(before: seq<Pass>, progress: Pass, after: seq<Pass>)
    requires progress.Productive() && forall p :: p in after ==> !p.Productive()
    ensures FailedPasses(before + [progress] + after) == Fruitless(after)
  {
    if after == [] {
      assert (before + [progress] + after)[|before|] == progress;
    } else {
      var init := after[..|after| - 1];
      assert (before + [progress] + after)[..|before| + |after|] == before + [progress] + init;
      assert after[|after| - 1] in after;
      ProgressResetsBackoff(before, progress, init);
    }
  }

  function Shift(base: nat, n: nat): nat {
    if n == 0 then base else 2 * Shift(base, n - 1)
  }

  lemma {:induction false} ShiftIsMonotone(base: nat, m: nat, n: nat)
    requires m <= n
    ensures Shift(base, m) <= Shift(base, n)
  {
    if m < n {
      ShiftIsMonotone(base, m, n - 1);
    }
  }

  // The pause after a history of passes.
  function Pause(base: nat, passes: seq<Pass>): nat {
    Shift(base, Min(FailedPasses(passes), MAX_BACKOFF_SHIFT))
  }

  // Pauses stay between the base interval and 32 times it.
  lemma PauseIsBounded(base: nat, passes: seq<Pass>)
    ensures base <= Pause(base, passes) <= 32 * base
  {
    var n := Min(FailedPasses(passes), MAX_BACKOFF_SHIFT);
    ShiftIsMonotone(base, 0, n);
    ShiftIsMonotone(base, n, 5);
    assert Shift(base, 5) == 2 * Shift(base, 4) == 4 * Shift(base, 3) == 8 * Shift(base, 2) == 16 * Shift(base, 1);
  }

  // The loop of Run.
  method Run(base: nat, passes: seq<Pass>) returns (pauses: seq<nat>)
    ensures |pauses| == |passes|
    ensures forall i :: 0 <= i < |passes| ==> pauses[i] == Pause(base, passes[..i + 1])
  {
    pauses := [];
    var failedPasses := 0;
    for i := 0 to |passes|
      invariant |pauses| == i && failedPasses == FailedPasses(passes[..i])
      invariant forall k :: 0 <= k < i ==> pauses[k] == Pause(base, passes[..k + 1])
    {
      assert passes[..i + 1][..i] == passes[..i];
      if passes[i].executed > 0 {
        if passes[i].migrated > 0 {
          failedPasses := 0;
        } else {
          failedPasses := failedPasses + 1;
        }
      }
      var interval := base;
      if failedPasses > 0 {
        interval := Shift(base, Min(failedPasses, MAX_BACKOFF_SHIFT));
      }
      pauses := pauses + [interval];
    }
  }

  // --- the hosts a pass may dial ---

  type HostKey = nat
  datatype Host = Host(key: HostKey, good: bool)

  function Merged(hosts: map<HostKey, Host>, batch: seq<Host>): map<HostKey, Host> {
    if batch == [] then hosts else Merged(hosts, batch[..|batch| - 1])[batch[|batch| - 1].key := batch[|batch| - 1]]
  }

  // A merge never drops a host and makes every host of the batch known.
  lemma {:induction false} MergeKeepsHosts(hosts: map<HostKey, Host>, batch: seq<Host>)
    ensures forall k :: k in Merged(hosts, batch) <==> k in hosts || exists h :: h in batch && h.key == k
    ensures forall k :: k in Merged(hosts, batch) && (forall h :: h in batch ==> h.key != k) ==> Merged(hosts, batch)[k] == hosts[k]
  {
    if batch != [] {
      var init, last := batch[..|batch| - 1], batch[|batch| - 1];
      assert batch == init + [last];
      MergeKeepsHosts(hosts, init);
    }
  }

  class CachedHostStore {
    var hosts: map<HostKey, Host>

    constructor ()
      ensures hosts == map[]
    {
      hosts := map[];
    }

    method Merge(batch: seq<Host>)
      modifies this
      ensures hosts == Merged(old(hosts), batch)
    {
      for i := 0 to |batch|
        invariant hosts == Merged(old(hosts), batch[..i])
      {
        assert batch[..i + 1][..i] == batch[..i];
        hosts := hosts[batch[i].key := batch[i]];
      }
      assert batch[..|batch|] == batch;
    }

    method Clear()
      modifies this
      ensures hosts == map[]
    {
      hosts := map[];
    }

    // The producer's merges of one pass: a host of any earlier batch stays known to the end.
    method MergeBatches(batches: seq<seq<Host>>)
      modifies this
      ensures forall i, h :: 0 <= i < |batches| && h in batches[i] ==> h.key in hosts
      ensures forall k :: k in hosts ==> exists i, h :: 0 <= i < |batches| && h in batches[i] && h.key == k
    {
      Clear();
      for i := 0 to |batches|
        invariant forall j, h :: 0 <= j < i && h in batches[j] ==> h.key in hosts
        invariant forall k :: k in hosts ==> exists j, h :: 0 <= j < i && h in batches[j] && h.key == k
      {
        MergeKeepsHosts(hosts, batches[i]);
        Merge(batches[i]);
      }
    }
  }
}
