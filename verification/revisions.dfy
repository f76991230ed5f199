// RevisionManager.WithRevision and syncRevision of contracts/revision.go, with the guarded store write
// and the host usage booking of persist/postgres/contracts.go. The caller holds the contract's lock.
module Revisions {
  import opened Common

  datatype Revision = Revision(number: nat, allowance: nat, proofHeight: nat)

  // What a revise function answers; cost is the renter cost of the usage it reports.
  datatype Revised = Done(rev: Revision, cost: nat) | InvalidSignature | Failed

  // The n-th call of the revise function, n being 0 or 1, with the revision it is given.
  type ReviseFn = (nat, Revision) -> Revised

  // The row of the contract, and what is booked as spent on its host.
  datatype Stored = Stored(rev: Revision, renewed: bool, bad: bool, spent: nat)

  datatype Latest = Latest(rev: Revision, renewed: bool)

  // The answers the outside world gives during one call: is the contract found, the host's latest
  // revision if it can be fetched, and whether the database accepts each write.
  datatype World = World(found: bool, height: nat, latest: Option<Latest>, markOk: bool, syncOk: bool, finalOk: bool)

  datatype CallError = NotFound | Renewed | NotRevisable | SyncFailed | ReviseFailed | WriteFailed

  // A contract is out of reach exactly when height and buffer together pass its proof height.
  function IsBeyondMaxRevisionHeight(proofHeight: nat, buffer: nat, height: nat): (r: bool)
    ensures r <==> proofHeight <= height + buffer
  {
    var maxRevisionHeight := if proofHeight > buffer then proofHeight - buffer else 0;
    height >= maxRevisionHeight
  }

  // --- what one call does to the store ---

  // The guarded write: it books the cost and takes effect only for a strictly higher number.
  function Written(s: Stored, r: Revision, cost: nat, dbOk: bool): Stored {
    if dbOk && r.number > s.rev.number then s.(rev := r, spent := s.spent + cost) else s
  }

  predicate Revisable(r: Revision, buffer: nat, w: World) {
    r.proofHeight > w.height + buffer
  }

  predicate Ready(s: Stored, buffer: nat, w: World) {
    w.found && !s.renewed && Revisable(s.rev, buffer, w)
  }

  // The host answers with a revision that is not older than the stored one.
  predicate CanSync(s: Stored, w: World) {
    w.latest.Some? && w.latest.value.rev.number >= s.rev.number
  }

  predicate SyncUsable(s: Stored, buffer: nat, w: World) {
    CanSync(s, w) && !w.latest.value.renewed && Revisable(w.latest.value.rev, buffer, w)
  }

  function AfterSync(s: Stored, w: World): Stored {
    if w.latest.None? then s
    else if !CanSync(s, w) then s.(bad := s.bad || w.markOk)
    else
      var l := w.latest.value.rev;
      Written(s, l, if l.allowance < s.rev.allowance then s.rev.allowance - l.allowance else 0, w.syncOk)
  }

  function AfterRevise(s: Stored, base: Revision, r: Revised, w: World): Stored {
    if r.Done? && r.rev.number > base.number then Written(s, r.rev, r.cost, w.finalOk) else s
  }

  function After(s: Stored, buffer: nat, w: World, revise: ReviseFn): Stored {
    if !Ready(s, buffer, w) then s
    else if !revise(0, s.rev).InvalidSignature? then AfterRevise(s, s.rev, revise(0, s.rev), w)
    else if !SyncUsable(s, buffer, w) then AfterSync(s, w)
    else AfterRevise(AfterSync(s, w), w.latest.value.rev, revise(1, w.latest.value.rev), w)
  }

  // --- what that means ---

  // The revise function reports as cost what it took from the allowance.
  ghost predicate CostAccurate(revise: ReviseFn) {
    forall n, r {:trigger revise(n, r)} :: revise(n, r).Done? ==> revise(n, r).rev.allowance + revise(n, r).cost == r.allowance
  }

  function Total(s: Stored): nat {
    s.spent + s.rev.allowance
  }

  predicate Syncs(s: Stored, buffer: nat, w: World, revise: ReviseFn) {
    Ready(s, buffer, w) && revise(0, s.rev).InvalidSignature? && CanSync(s, w)
  }

  predicate SyncWritten(s: Stored, w: World)
    requires CanSync(s, w)
  {
    w.syncOk && w.latest.value.rev.number > s.rev.number
  }

  predicate SecondWritten(s: Stored, buffer: nat, w: World, revise: ReviseFn)
    requires CanSync(s, w)
  {
    var l := w.latest.value.rev;
    && SyncUsable(s, buffer, w) && w.finalOk
    && revise(1, l).Done? && revise(1, l).rev.number > l.number
  }

  // A written sync must not raise the allowance; an unwritten one, followed by a written revision, must
  // not have changed it.
  predicate FairSync(s: Stored, buffer: nat, w: World, revise: ReviseFn)
    requires CanSync(s, w)
  {
    var l := w.latest.value.rev;
    if SyncWritten(s, w) then l.allowance <= s.rev.allowance
    else SecondWritten(s, buffer, w, revise) ==> l.allowance == s.rev.allowance
  }

  // An honest host: a newer revision never has more allowance, an equally numbered one is the stored one.
  predicate HonestHost(s: Stored, w: World) {
    w.latest.Some? ==>
      var l := w.latest.value.rev;
      l.allowance <= s.rev.allowance && (l.number == s.rev.number ==> l == s.rev)
  }

  // What is booked equals what the stored allowance lost, exactly when a sync that happens is fair.
  lemma SpendIsBookedIff(s: Stored, buffer: nat, w: World, revise: ReviseFn)
    requires CostAccurate(revise)
    ensures Total(After(s, buffer, w, revise)) == Total(s) <==>
      (Syncs(s, buffer, w, revise) ==> FairSync(s, buffer, w, revise))
  {
  }

  // A sync write that failed, before a retried revision that is written, loses spend: nothing but a log line
  // keeps track of it.
  lemma UnbookedSpendHappens() returns (s: Stored, w: World, revise: ReviseFn)
    ensures CostAccurate(revise) && HonestHost(s, w) && w.found && w.markOk && w.finalOk && !w.syncOk
    ensures Total(After(s, 0, w, revise)) < Total(s)
  {
    s := Stored(Revision(1, 100, 50), false, false, 0);
    w := World(true, 0, Some(Latest(Revision(2, 60, 50), false)), true, false, true);
    revise := (n: nat, r: Revision) => if n == 0 then InvalidSignature else Done(r.(number := r.number + 1), 0);
    assert Total(After(s, 0, w, revise)) == 60;
  }

  // No call books more than the stored allowance lost, as long as the host does not raise it.
  lemma NeverOverbooked(s: Stored, buffer: nat, w: World, revise: ReviseFn)
    requires CostAccurate(revise)
    requires w.latest.Some? ==> w.latest.value.rev.allowance <= s.rev.allowance
    ensures Total(After(s, buffer, w, revise)) <= Total(s)
  {
  }

  // --- the calls ---

  // What the writes of one contract looked like, oldest first.
  ghost predicate Increasing(numbers: seq<nat>) {
    forall i, j :: 0 <= i < j < |numbers| ==> numbers[i] < numbers[j]
  }

  class RevisionManager {
    const buffer: nat
    var rev: Revision
    var renewed: bool
    var bad: bool
    var spent: nat
    ghost var numbers: seq<nat> // every revision number the row had

    constructor (buffer: nat, s: Stored)
      ensures Valid() && View() == s && this.buffer == buffer && numbers == [s.rev.number]
    {
      this.buffer, rev, renewed, bad, spent, numbers := buffer, s.rev, s.renewed, s.bad, s.spent, [s.rev.number];
    }

    ghost predicate Valid()
      reads this
    {
      |numbers| > 0 && numbers[|numbers| - 1] == rev.number && Increasing(numbers)
    }

    function View(): Stored
      reads this
    {
      Stored(rev, renewed, bad, spent)
    }

    // UpdateContractRevision with the usage booking, in one transaction.
    method UpdateContractRevision(r: Revision, cost: nat, dbOk: bool) returns (ok: bool)
      requires Valid()
      modifies this
      ensures Valid() && View() == Written(old(View()), r, cost, dbOk)
      ensures ok <==> dbOk && r.number > old(rev.number)
      ensures numbers == if ok then old(numbers) + [r.number] else old(numbers)
    {
      ok := false;
      if !dbOk || rev.number >= r.number {
        return;
      }
      rev, spent := r, spent + cost;
      numbers := numbers + [r.number];
      return true;
    }

    method SyncRevision(w: World) returns (latest: Option<Latest>)
      requires Valid()
      modifies this
      ensures Valid() && View() == AfterSync(old(View()), w)
      ensures old(numbers) <= numbers && |numbers| <= |old(numbers)| + 1
      ensures latest == if CanSync(old(View()), w) then w.latest else None
    {
      if w.latest.None? {
        return None;
      }
      var l := w.latest.value;
      if l.rev.number < rev.number {
        if w.markOk {
          bad := true;
        }
        return None;
      }
      var storage := 0;
      if l.rev.allowance < rev.allowance {
        storage := rev.allowance - l.rev.allowance;
      }
      var ok := UpdateContractRevision(l.rev, storage, w.syncOk); // a failure is only logged
      return Some(l);
    }

    method WithRevision(w: World, revise: ReviseFn) returns (calls: nat, err: Option<CallError>)
      requires Valid()
      modifies this
      ensures Valid() && View() == After(old(View()), buffer, w, revise)
      // the row's numbers only grew, and the revise function ran at most twice
      ensures old(numbers) <= numbers && |numbers| <= |old(numbers)| + 2
      ensures calls == if !Ready(old(View()), buffer, w) then 0
                       else if revise(0, old(rev)).InvalidSignature? && SyncUsable(old(View()), buffer, w) then 2 else 1
      ensures err.None? ==> calls > 0 && revise(calls - 1, if calls == 1 then old(rev) else w.latest.value.rev).Done?
      // success means the revision is recorded when it is newer than what it was based on
      ensures err.None? ==>
        var base := if calls == 1 then old(rev) else w.latest.value.rev;
        revise(calls - 1, base).rev.number > base.number ==> rev == revise(calls - 1, base).rev
      ensures err == Some(Renewed) ==> old(renewed) || (w.latest.Some? && w.latest.value.renewed)
    {
      calls := 0;
      if !w.found {
        return 0, Some(NotFound);
      }
      if renewed {
        return 0, Some(Renewed);
      }
      var contract := rev;
      if IsBeyondMaxRevisionHeight(contract.proofHeight, buffer, w.height) {
        return 0, Some(NotRevisable);
      }
      var revised := revise(0, contract);
      calls := 1;
      if revised.InvalidSignature? {
        var latest := SyncRevision(w);
        if latest.None? {
          return calls, Some(SyncFailed);
        }
        if latest.value.renewed {
          return calls, Some(Renewed);
        }
        contract := latest.value.rev;
        if IsBeyondMaxRevisionHeight(contract.proofHeight, buffer, w.height) {
          return calls, Some(NotRevisable);
        }
        revised := revise(1, contract);
        calls := 2;
      }
      if !revised.Done? {
        return calls, Some(ReviseFailed);
      }
      if revised.rev.number > contract.number {
        var ok := UpdateContractRevision(revised.rev, revised.cost, w.finalOk);
        if !ok {
          return calls, Some(WriteFailed);
        }
      }
      return calls, None;
    }
  }

  // --- over whole runs ---

  datatype Call = Call(world: World, revise: ReviseFn)

  function AfterAll(s: Stored, buffer: nat, calls: seq<Call>): Stored
    decreases |calls|
  {
    if calls == [] then s
    else
      var last := calls[|calls| - 1];
      After(AfterAll(s, buffer, calls[..|calls| - 1]), buffer, last.world, last.revise)
  }

  // Every call is cost-accurate and every sync along the way is fair.
  ghost predicate FairRun(s: Stored, buffer: nat, calls: seq<Call>)
    decreases |calls|
  {
    calls != [] ==>
      var last, before := calls[|calls| - 1], AfterAll(s, buffer, calls[..|calls| - 1]);
      && FairRun(s, buffer, calls[..|calls| - 1])
      && CostAccurate(last.revise)
      && (Syncs(before, buffer, last.world, last.revise) ==> FairSync(before, buffer, last.world, last.revise))
  }

  // Over any fair run the spend booked on the host is the drop of the stored allowance, and the
  // revision number never falls.
  lemma {:induction false} RunConserves(s: Stored, buffer: nat, calls: seq<Call>)
    requires FairRun(s, buffer, calls)
    ensures Total(AfterAll(s, buffer, calls)) == Total(s)
    ensures AfterAll(s, buffer, calls).rev.number >= s.rev.number
    ensures AfterAll(s, buffer, calls).rev.number == s.rev.number ==> AfterAll(s, buffer, calls).rev == s.rev
    decreases |calls|
  {
    if calls != [] {
      var last, before := calls[|calls| - 1], AfterAll(s, buffer, calls[..|calls| - 1]);
      RunConserves(s, buffer, calls[..|calls| - 1]);
      SpendIsBookedIff(before, buffer, last.world, last.revise);
    }
  }

  ghost predicate HonestRun(s: Stored, buffer: nat, calls: seq<Call>)
    decreases |calls|
  {
    calls != [] ==>
      var last, before := calls[|calls| - 1], AfterAll(s, buffer, calls[..|calls| - 1]);
      HonestRun(s, buffer, calls[..|calls| - 1]) && CostAccurate(last.revise) && HonestHost(before, last.world) && last.world.syncOk
  }

  // With an honest host and sync writes that succeed every run is fair, whatever the other failures.
  lemma {:induction false} HonestRunIsFair(s: Stored, buffer: nat, calls: seq<Call>)
    requires HonestRun(s, buffer, calls)
    ensures FairRun(s, buffer, calls)
    decreases |calls|
  {
    if calls != [] {
      HonestRunIsFair(s, buffer, calls[..|calls| - 1]);
    }
  }
}
