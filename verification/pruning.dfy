// pruneContract of contracts/pruning.go with the database lookup it uses. The host's FreeSectors and
// SectorRoots calls are methods of HostContract: their contracts are what callers may rely on, and any
// call may fail, FreeSectors with or without having freed the sectors.
module Pruning {
  import opened Common

  type Root = int
  type HostKey = nat
  type ContractID = nat

  const DB_ROOTS_BATCH_SIZE := 10000

  // A row of the sectors table.
  datatype SectorRow = SectorRow(host: Option<HostKey>, contract: Option<ContractID>)

  datatype ContractRow = ContractRow(host: HostKey, sectors: nat, renewed: bool)

  // The roots that must stay: pinned to the contract, or on its host and not pinned yet.
  function Needed(sectors: map<Root, SectorRow>, id: ContractID, host: HostKey): set<Root> {
    set r | r in sectors && (sectors[r].contract == Some(id) || (sectors[r].host == Some(host) && sectors[r].contract.None?))
  }

  function Prunable(roots: seq<Root>, needed: set<Root>): seq<Root> {
    if roots == [] then []
    else (if roots[0] in needed then [] else [roots[0]]) + Prunable(roots[1..], needed)
  }

  function StillNeeded(roots: seq<Root>, needed: set<Root>): seq<Root> {
    if roots == [] then []
    else (if roots[0] in needed then [roots[0]] else []) + StillNeeded(roots[1..], needed)
  }

  // Where the prunable roots of a window starting at offset lie, in ascending order.
  function PrunableIndices(window: seq<Root>, offset: nat, needed: set<Root>): (r: seq<nat>)
    ensures |r| <= |window|
  {
    if window == [] then []
    else (if window[0] in needed then [] else [offset]) + PrunableIndices(window[1..], offset + 1, needed)
  }

  predicate Ascending(indices: seq<nat>, low: nat, bound: nat) {
    indices == [] || (low <= indices[0] < bound && Ascending(indices[1..], indices[0] + 1, bound))
  }

  function Picked(contents: seq<Root>, indices: seq<nat>): seq<Root>
    requires Ascending(indices, 0, |contents|)
  {
    if indices == [] then []
    else
      AscendingFromLower(indices[1..], indices[0] + 1, 0, |contents|);
      [contents[indices[0]]] + Picked(contents, indices[1..])
  }

  // FreeSectors removes exactly the roots at the given indices; the others may end up in any order.
  ghost predicate Freed(before: seq<Root>, indices: seq<nat>, after: seq<Root>) {
    && Ascending(indices, 0, |before|)
    && multiset(before) == multiset(after) + multiset(Picked(before, indices))
  }

  lemma AscendingFromLower(indices: seq<nat>, low: nat, lower: nat, bound: nat)
    requires Ascending(indices, low, bound) && lower <= low
    ensures Ascending(indices, lower, bound)
  {
  }

  function Window(contents: seq<Root>, offset: nat, batch: nat): seq<Root>
    requires offset <= |contents|
  {
    contents[offset..offset + Min(batch, |contents| - offset)]
  }

  function WindowIndices(contents: seq<Root>, offset: nat, batch: nat, needed: set<Root>): seq<nat>
    requires offset <= |contents|
  {
    PrunableIndices(Window(contents, offset, batch), offset, needed)
  }

  // --- lemmas about one window ---

  lemma {:induction false} PickedIsPrunable(contents: seq<Root>, offset: nat, window: seq<Root>, needed: set<Root>)
    requires offset + |window| <= |contents| && contents[offset..offset + |window|] == window
    ensures Ascending(PrunableIndices(window, offset, needed), offset, |contents|)
    ensures Ascending(PrunableIndices(window, offset, needed), 0, |contents|)
    ensures Picked(contents, PrunableIndices(window, offset, needed)) == Prunable(window, needed)
    decreases |window|
  {
    if window != [] {
      assert contents[offset + 1..offset + 1 + |window[1..]|] == window[1..];
      PickedIsPrunable(contents, offset + 1, window[1..], needed);
      assert contents[offset] == window[0];
      var rest := PrunableIndices(window[1..], offset + 1, needed);
      AscendingFromLower(rest, offset + 1, offset, |contents|);
      if window[0] !in needed {
        assert ([offset] + rest)[1..] == rest;
      } else {
        assert [] + rest == rest;
      }
    }
  }

  lemma {:induction false} CountPrunable(roots: seq<Root>, needed: set<Root>, r: Root)
    ensures multiset(Prunable(roots, needed))[r] == if r in needed then 0 else multiset(roots)[r]
    ensures multiset(StillNeeded(roots, needed))[r] == if r in needed then multiset(roots)[r] else 0
  {
    if roots != [] {
      CountPrunable(roots[1..], needed, r);
      assert roots == [roots[0]] + roots[1..];
    }
  }

  // No copy of a needed root is freed.
  lemma NeededSurvives(before: seq<Root>, offset: nat, window: seq<Root>, needed: set<Root>, after: seq<Root>, r: Root)
    requires offset + |window| <= |before| && before[offset..offset + |window|] == window
    requires Freed(before, PrunableIndices(window, offset, needed), after)
    requires r in needed
    ensures multiset(after)[r] == multiset(before)[r]
  {
    PickedIsPrunable(before, offset, window, needed);
    CountPrunable(window, needed, r);
  }

  lemma {:induction false} PickedLength(contents: seq<Root>, indices: seq<nat>)
    requires Ascending(indices, 0, |contents|)
    ensures |Picked(contents, indices)| == |indices|
  {
    if indices != [] {
      AscendingFromLower(indices[1..], indices[0] + 1, 0, |contents|);
      PickedLength(contents, indices[1..]);
    }
  }

  lemma FreedLength(before: seq<Root>, indices: seq<nat>, after: seq<Root>)
    requires Freed(before, indices, after)
    ensures |before| == |after| + |indices|
  {
    PickedLength(before, indices);
    assert |multiset(before)| == |multiset(after)| + |multiset(Picked(before, indices))|;
  }

  // --- the two parties ---

  class Database {
    var sectors: map<Root, SectorRow>
    var contracts: map<ContractID, ContractRow>

    // PrunableContractRoots: the given roots without the needed ones, or an error.
    method PrunableContractRoots(id: ContractID, roots: seq<Root>) returns (r: Result<seq<Root>, ()>)
      ensures r.Ok? ==> id in contracts && r.value == Prunable(roots, Needed(sectors, id, contracts[id].host))
    {
      var fails: bool := *;
      if id !in contracts || fails {
        return Err(());
      }
      var wanted := Needed(sectors, id, contracts[id].host);
      var lookup := set x | x in roots && x in wanted;
      var prunable := [];
      for i := 0 to |roots|
        invariant prunable == Prunable(roots[..i], wanted)
      {
        PrunableSplits(roots[..i], [roots[i]], wanted);
        assert roots[..i + 1] == roots[..i] + [roots[i]];
        if roots[i] !in lookup {
          prunable := prunable + [roots[i]];
        }
      }
      assert roots[..|roots|] == roots;
      return Ok(prunable);
    }

    // The lookups in batches of 10000 find what a single lookup of all roots would.
    method LookupPrunable(id: ContractID, roots: seq<Root>) returns (r: Result<set<Root>, ()>)
      ensures r.Ok? && roots != [] ==> id in contracts
      ensures r.Ok? && roots != [] ==>
        forall x :: x in r.value <==> x in Prunable(roots, Needed(sectors, id, contracts[id].host))
    {
      var prunable := {};
      var start := 0;
      while start < |roots|
        invariant start > 0 ==> id in contracts
        invariant start > 0 ==>
          forall x :: x in prunable <==> x in Prunable(roots[..Min(start, |roots|)], Needed(sectors, id, contracts[id].host))
        invariant start == 0 ==> prunable == {}
      {
        var end := Min(start + DB_ROOTS_BATCH_SIZE, |roots|);
        var batch := PrunableContractRoots(id, roots[start..end]);
        if batch.Err? {
          return Err(());
        }
        PrunableSplits(roots[..start], roots[start..end], Needed(sectors, id, contracts[id].host));
        assert roots[..end] == roots[..start] + roots[start..end];
        prunable := prunable + set x | x in batch.value;
        start := start + DB_ROOTS_BATCH_SIZE;
      }
      assert roots[..|roots|] == roots;
      return Ok(prunable);
    }
  }

  lemma {:induction false} PrunableSplits(a: seq<Root>, b: seq<Root>, needed: set<Root>)
    ensures Prunable(a + b, needed) == Prunable(a, needed) + Prunable(b, needed)
  {
    if a == [] {
      assert a + b == b;
    } else {
      PrunableSplits(a[1..], b, needed);
      assert (a + b)[1..] == a[1..] + b && (a + b)[0] == a[0];
      var first := if a[0] in needed then [] else [a[0]];
      var x, y := Prunable(a[1..], needed), Prunable(b, needed);
      assert first + (x + y) == (first + x) + y;
    }
  }

  lemma {:induction false} InPrunable(roots: seq<Root>, needed: set<Root>, x: Root)
    ensures x in Prunable(roots, needed) <==> x in roots && x !in needed
  {
    if roots != [] {
      InPrunable(roots[1..], needed, x);
      assert roots == [roots[0]] + roots[1..];
    }
  }

  // A freed slot is refilled from the tail.
  function RefillFromTail(contents: seq<Root>, i: nat): seq<Root>
    requires i < |contents|
  {
    contents[i := contents[|contents| - 1]][..|contents| - 1]
  }

  lemma RemovingOne(cur: seq<Root>, i: nat)
    requires i < |cur|
    ensures multiset(cur) == multiset(RefillFromTail(cur, i)) + multiset{cur[i]}
  {
    var n := |cur| - 1;
    assert cur == cur[..n] + [cur[n]];
    var moved := cur[i := cur[n]];
    assert moved == moved[..n] + [moved[n]];
    assert multiset(moved) == multiset(cur) - multiset{cur[i]} + multiset{cur[n]};
    assert multiset(moved[..n]) + multiset{moved[n]} == multiset(moved);
  }

  lemma RefillStep(contents: seq<Root>, indices: seq<nat>, low: nat, rest: seq<Root>)
    requires indices != [] && Ascending(indices, low, |contents|) && Ascending(indices, 0, |contents|)
    requires Freed(contents, indices[1..], rest) && indices[0] + 1 <= |rest| && rest[..indices[0] + 1] == contents[..indices[0] + 1]
    ensures Freed(contents, indices, RefillFromTail(rest, indices[0]))
    ensures low <= |rest| - 1 && RefillFromTail(rest, indices[0])[..low] == contents[..low]
  {
    var i := indices[0];
    assert rest[i] == rest[..i + 1][i] == contents[..i + 1][i];
    RemovingOne(rest, i);
    assert RefillFromTail(rest, i)[..low] == rest[..i + 1][..low] == contents[..i + 1][..low];
  }

  // What is left once every given slot was refilled, the highest first; slots below low stay.
  function Refilled(contents: seq<Root>, indices: seq<nat>, low: nat): (after: seq<Root>)
    requires Ascending(indices, low, |contents|) && low <= |contents|
    ensures |after| + |indices| == |contents| && low <= |after|
    decreases |indices|
  {
    if indices == [] then contents
    else RefillFromTail(Refilled(contents, indices[1..], indices[0] + 1), indices[0])
  }

  lemma {:induction false} RefilledIsFreed(contents: seq<Root>, indices: seq<nat>, low: nat)
    requires Ascending(indices, low, |contents|) && low <= |contents|
    ensures Freed(contents, indices, Refilled(contents, indices, low))
    ensures Refilled(contents, indices, low)[..low] == contents[..low]
    decreases |indices|
  {
    AscendingFromLower(indices, low, 0, |contents|);
    if indices != [] {
      RefilledIsFreed(contents, indices[1..], indices[0] + 1);
      RefillStep(contents, indices, low, Refilled(contents, indices[1..], indices[0] + 1));
    }
  }

  class HostContract {
    var contents: seq<Root>

    // SectorRoots: the requested roots, or an error when the range is not in the contract.
    method SectorRoots(offset: nat, length: nat) returns (r: Result<seq<Root>, ()>)
      ensures r.Ok? ==> offset + length <= |contents| && r.value == contents[offset..offset + length]
    {
      var fails: bool := *;
      if offset + length > |contents| || fails {
        return Err(());
      }
      return Ok(contents[offset..offset + length]);
    }

    // FreeSectors: each freed slot is refilled from the tail. An error may come before or after the
    // sectors are gone.
    method FreeSectors(indices: seq<nat>) returns (ok: bool)
      requires Ascending(indices, 0, |contents|)
      modifies this
      ensures Freed(old(contents), indices, contents) || (!ok && contents == old(contents))
    {
      if * {
        return false;
      }
      RefilledIsFreed(contents, indices, 0);
      contents := Refilled(contents, indices, 0);
      ok := *;
    }
  }

  // --- whole scans, for any order the host leaves behind ---

  ghost predicate Round(before: seq<Root>, offset: nat, batch: nat, needed: set<Root>, after: seq<Root>) {
    && offset < |before|
    && var indices := WindowIndices(before, offset, batch, needed);
    if indices == [] then after == before else Freed(before, indices, after)
  }

  // Where the k-th window starts.
  function Offset(k: nat, batch: nat): nat {
    if k == 0 then 0 else Offset(k - 1, batch) + batch
  }

  lemma {:induction false} OffsetIsMultiple(k: nat, batch: nat)
    ensures Offset(k, batch) == k * batch
  {
    if k > 0 {
      OffsetIsMultiple(k - 1, batch);
    }
  }

  ghost predicate RoundAt(states: seq<seq<Root>>, k: nat, batch: nat, needed: set<Root>)
    requires k + 1 < |states|
  {
    Round(states[k], Offset(k, batch), batch, needed, states[k + 1])
  }

  // states[k] is what the contract holds when the scan is at the k-th window.
  ghost predicate Scanned(states: seq<seq<Root>>, batch: nat, needed: set<Root>) {
    states != [] && forall k: nat {:trigger RoundAt(states, k, batch, needed)} :: k + 1 < |states| ==> RoundAt(states, k, batch, needed)
  }

  ghost predicate FullScan(states: seq<seq<Root>>, batch: nat, needed: set<Root>) {
    Scanned(states, batch, needed) && |states[|states| - 1]| <= Offset(|states| - 1, batch)
  }

  predicate Clean(contents: seq<Root>, needed: set<Root>) {
    forall i :: 0 <= i < |contents| ==> contents[i] in needed
  }

  predicate SameWindow(i: nat, j: nat, batch: nat)
    requires batch > 0
  {
    i / batch == j / batch
  }

  // The prunable roots all lie in the same window of the scan.
  predicate OneWindow(contents: seq<Root>, batch: nat, needed: set<Root>)
    requires batch > 0
  {
    forall i, j :: 0 <= i < |contents| && 0 <= j < |contents| && contents[i] !in needed && contents[j] !in needed ==>
      SameWindow(i, j, batch)
  }

  lemma DivisionWindow(i: nat, k: nat, batch: nat)
    requires batch > 0
    ensures i / batch == k <==> k * batch <= i < k * batch + batch
  {
    var q := i / batch;
    assert q * batch <= i < q * batch + batch;
    if q < k {
      assert (q + 1) * batch <= k * batch;
    } else if q > k {
      assert (k + 1) * batch <= q * batch;
    }
  }

  lemma WindowOf(i: nat, k: nat, batch: nat)
    requires batch > 0
    ensures i / batch == k <==> Offset(k, batch) <= i < Offset(k, batch) + batch
  {
    OffsetIsMultiple(k, batch);
    DivisionWindow(i, k, batch);
  }

  lemma {:induction false} NoneIffNoIndex(window: seq<Root>, offset: nat, needed: set<Root>)
    ensures PrunableIndices(window, offset, needed) == [] <==> forall i :: 0 <= i < |window| ==> window[i] in needed
  {
    if window != [] {
      NoneIffNoIndex(window[1..], offset + 1, needed);
      assert window == [window[0]] + window[1..];
    }
  }

  // The prunable roots of contents all lie in contents[offset..offset + batch].
  ghost predicate Inside(contents: seq<Root>, offset: nat, batch: nat, needed: set<Root>) {
    forall i :: 0 <= i < |contents| && contents[i] !in needed ==> offset <= i < offset + batch
  }

  // They all lie at or after offset.
  ghost predicate Behind(contents: seq<Root>, offset: nat, needed: set<Root>) {
    forall i :: 0 <= i < |contents| && contents[i] !in needed ==> offset <= i
  }

  lemma EmptyWindow(before: seq<Root>, offset: nat, batch: nat, needed: set<Root>)
    requires offset < |before|
    ensures WindowIndices(before, offset, batch, needed) == [] <==>
      forall i :: offset <= i < Min(offset + batch, |before|) ==> before[i] in needed
  {
    var window := Window(before, offset, batch);
    NoneIffNoIndex(window, offset, needed);
    assert forall i :: 0 <= i < |window| ==> window[i] == before[offset + i];
    assert forall i :: offset <= i < offset + |window| ==> before[i] == window[i - offset];
  }

  lemma EmptyWindowMoves(before: seq<Root>, offset: nat, batch: nat, needed: set<Root>)
    requires offset < |before| && WindowIndices(before, offset, batch, needed) == [] && Behind(before, offset, needed)
    ensures Behind(before, offset + batch, needed) && Round(before, offset, batch, needed, before)
  {
    EmptyWindow(before, offset, batch, needed);
  }

  // A round leaves no prunable root when they all lie in its window.
  lemma RoundCleans(before: seq<Root>, offset: nat, batch: nat, needed: set<Root>, after: seq<Root>)
    requires Round(before, offset, batch, needed, after) && Inside(before, offset, batch, needed)
    ensures Clean(after, needed)
  {
    EmptyWindow(before, offset, batch, needed);
    if WindowIndices(before, offset, batch, needed) != [] {
      forall i | 0 <= i < |after| ensures after[i] in needed {
        assert after[i] in multiset(after);
        if after[i] !in needed {
          NoneLeft(before, offset, batch, needed, after, after[i]);
        }
      }
    }
  }

  lemma NoneLeft(before: seq<Root>, offset: nat, batch: nat, needed: set<Root>, after: seq<Root>, r: Root)
    requires offset < |before| && Inside(before, offset, batch, needed) && r !in needed
    requires var indices := WindowIndices(before, offset, batch, needed);
      Freed(before, indices, after)
    ensures multiset(after)[r] == 0
  {
    var window := Window(before, offset, batch);
    OutsideWindow(before, offset, window, needed, r);
    PickedIsPrunable(before, offset, window, needed);
    CountPrunable(window, needed, r);
  }

  lemma OutsideWindow(before: seq<Root>, offset: nat, window: seq<Root>, needed: set<Root>, r: Root)
    requires offset + |window| <= |before| && before[offset..offset + |window|] == window
    requires forall i :: 0 <= i < |before| && before[i] !in needed ==> offset <= i < offset + |window|
    requires r !in needed
    ensures multiset(before)[r] == multiset(window)[r]
  {
    assert before == before[..offset] + window + before[offset + |window|..];
    assert r !in before[..offset];
    assert r !in before[offset + |window|..];
  }

  lemma InsideOneWindow(before: seq<Root>, k: nat, batch: nat, needed: set<Root>, w: nat)
    requires batch > 0 && OneWindow(before, batch, needed)
    requires Offset(k, batch) <= w < Offset(k, batch) + batch && w < |before| && before[w] !in needed
    ensures Inside(before, Offset(k, batch), batch, needed)
  {
    WindowOf(w, k, batch);
    forall i | 0 <= i < |before| && before[i] !in needed ensures Offset(k, batch) <= i < Offset(k, batch) + batch {
      WindowOf(i, k, batch);
    }
  }

  // A round on unchanged contents whose prunable roots share a window.
  lemma RoundOfOneWindow(before: seq<Root>, k: nat, batch: nat, needed: set<Root>, after: seq<Root>)
    requires batch > 0 && Round(before, Offset(k, batch), batch, needed, after)
    requires OneWindow(before, batch, needed) && Behind(before, Offset(k, batch), needed)
    ensures Clean(after, needed) || (after == before && Behind(before, Offset(k, batch) + batch, needed))
  {
    var offset := Offset(k, batch);
    EmptyWindow(before, offset, batch, needed);
    if w :| offset <= w < Min(offset + batch, |before|) && before[w] !in needed {
      InsideOneWindow(before, k, batch, needed, w);
      RoundCleans(before, offset, batch, needed, after);
    }
  }

  lemma RoundKeepsClean(before: seq<Root>, offset: nat, batch: nat, needed: set<Root>, after: seq<Root>)
    requires Round(before, offset, batch, needed, after) && Clean(before, needed)
    ensures after == before
  {
    EmptyWindow(before, offset, batch, needed);
  }

  lemma ScannedRound(states: seq<seq<Root>>, k: nat, batch: nat, needed: set<Root>)
    requires Scanned(states, batch, needed) && k + 1 < |states|
    ensures Round(states[k], Offset(k, batch), batch, needed, states[k + 1])
  {
    assert RoundAt(states, k, batch, needed);
  }

  // Nothing prunable is left, or nothing has changed and what is prunable is ahead.
  ghost predicate CleanOrAhead(first: seq<Root>, now: seq<Root>, offset: nat, needed: set<Root>) {
    Clean(now, needed) || (now == first && Behind(first, offset, needed))
  }

  lemma StepOfOneWindow(first: seq<Root>, before: seq<Root>, k: nat, batch: nat, needed: set<Root>, after: seq<Root>)
    requires batch > 0 && OneWindow(first, batch, needed) && CleanOrAhead(first, before, Offset(k, batch), needed)
    requires Round(before, Offset(k, batch), batch, needed, after)
    ensures CleanOrAhead(first, after, Offset(k + 1, batch), needed)
  {
    if Clean(before, needed) {
      RoundKeepsClean(before, Offset(k, batch), batch, needed, after);
    } else {
      RoundOfOneWindow(before, k, batch, needed, after);
    }
  }

  // Up to the window that holds them nothing changes, after it nothing prunable is left.
  lemma {:induction false} ScanOfOneWindow(states: seq<seq<Root>>, m: nat, batch: nat, needed: set<Root>)
    requires m < |states| && batch > 0 && Scanned(states, batch, needed) && OneWindow(states[0], batch, needed)
    ensures CleanOrAhead(states[0], states[m], Offset(m, batch), needed)
  {
    if m > 0 {
      ScanOfOneWindow(states, m - 1, batch, needed);
      ScannedRound(states, m - 1, batch, needed);
      StepOfOneWindow(states[0], states[m - 1], m - 1, batch, needed, states[m]);
    }
  }

  // What order-preserving removal leaves.
  function Compacted(before: seq<Root>, offset: nat, batch: nat, needed: set<Root>): seq<Root>
    requires offset <= |before|
  {
    var window := Window(before, offset, batch);
    before[..offset] + StillNeeded(window, needed) + before[offset + |window|..]
  }

  lemma SplitWindow(window: seq<Root>, needed: set<Root>)
    ensures multiset(window) == multiset(StillNeeded(window, needed)) + multiset(Prunable(window, needed))
  {
    forall r: Root
      ensures multiset(window)[r] == multiset(StillNeeded(window, needed))[r] + multiset(Prunable(window, needed))[r]
    {
      CountPrunable(window, needed, r);
    }
  }

  lemma CompactedParts(a: seq<Root>, window: seq<Root>, b: seq<Root>, needed: set<Root>)
    ensures Freed(a + window + b, PrunableIndices(window, |a|, needed), a + StillNeeded(window, needed) + b)
  {
    var before := a + window + b;
    assert before[|a|..|a| + |window|] == window;
    PickedIsPrunable(before, |a|, window, needed);
    SplitWindow(window, needed);
    assert multiset(before) == multiset(a) + multiset(window) + multiset(b);
  }

  lemma CompactedIsFreed(before: seq<Root>, offset: nat, batch: nat, needed: set<Root>)
    requires offset < |before|
    ensures Freed(before, WindowIndices(before, offset, batch, needed), Compacted(before, offset, batch, needed))
  {
    var window := Window(before, offset, batch);
    CompactedParts(before[..offset], window, before[offset + |window|..], needed);
    assert before == before[..offset] + window + before[offset + |window|..];
  }

  // A host that keeps what lies before the window.
  lemma KeepingRound(before: seq<Root>, offset: nat, batch: nat, needed: set<Root>) returns (after: seq<Root>)
    requires offset < |before|
    ensures Round(before, offset, batch, needed, after)
    ensures offset <= |after| <= |before| && after[..offset] == before[..offset]
  {
    var indices := WindowIndices(before, offset, batch, needed);
    after := before;
    if indices != [] {
      CompactedIsFreed(before, offset, batch, needed);
      after := Compacted(before, offset, batch, needed);
      FreedLength(before, indices, after);
    }
  }

  lemma ScannedExtends(states: seq<seq<Root>>, batch: nat, needed: set<Root>, after: seq<Root>)
    requires Scanned(states, batch, needed)
    requires Round(states[|states| - 1], Offset(|states| - 1, batch), batch, needed, after)
    ensures Scanned(states + [after], batch, needed)
    ensures var longer := states + [after];
      |longer| - 1 == |states| && longer[|longer| - 1] == after && longer[0] == states[0]
    ensures Offset(|states|, batch) == Offset(|states| - 1, batch) + batch
  {
    var longer := states + [after];
    forall k: nat | k + 1 < |longer| ensures RoundAt(longer, k, batch, needed) {
      if k + 1 < |states| {
        assert RoundAt(states, k, batch, needed);
      }
    }
  }

  // Once a prunable root sits at index 0 behind the scan, a host may keep it there to the end.
  lemma {:induction false} MissedForever(states: seq<seq<Root>>, batch: nat, needed: set<Root>)
    returns (full: seq<seq<Root>>)
    requires batch > 0 && |states| > 1 && Scanned(states, batch, needed)
    requires |states[|states| - 1]| > 0 && states[|states| - 1][0] !in needed
    ensures FullScan(full, batch, needed) && full[0] == states[0] && !Clean(full[|full| - 1], needed)
    decreases Max(0, |states[|states| - 1]| - Offset(|states| - 1, batch))
  {
    var k := |states| - 1;
    var before := states[k];
    if |before| <= Offset(k, batch) {
      return states;
    }
    var after := KeepingRound(before, Offset(k, batch), batch, needed);
    assert after[0] == after[..Offset(k, batch)][0] == before[..Offset(k, batch)][0];
    ScannedExtends(states, batch, needed, after);
    full := MissedForever(states + [after], batch, needed);
  }

  // A host that moves a prunable root from beyond the window to the front.
  lemma HidingRound(before: seq<Root>, offset: nat, batch: nat, needed: set<Root>, other: nat) returns (after: seq<Root>)
    requires offset + batch <= other < |before| && before[other] !in needed
    requires WindowIndices(before, offset, batch, needed) != []
    ensures Round(before, offset, batch, needed, after) && |after| > 0 && after[0] == before[other]
  {
    CompactedIsFreed(before, offset, batch, needed);
    var base := Compacted(before, offset, batch, needed);
    var p := |base| - (|before| - other);
    assert base[p] == before[other];
    after := [base[p]] + base[..p] + base[p + 1..];
    assert base == base[..p] + [base[p]] + base[p + 1..];
    assert multiset(after) == multiset(base);
  }

  // Two prunable roots in different windows: one of them lies beyond the first window that has any.
  lemma OneBeyond(c: seq<Root>, k: nat, batch: nat, needed: set<Root>) returns (other: nat)
    requires batch > 0 && !OneWindow(c, batch, needed) && Behind(c, Offset(k, batch), needed)
    ensures Offset(k, batch) + batch <= other < |c| && c[other] !in needed
  {
    var i, j :| 0 <= i < |c| && 0 <= j < |c| && c[i] !in needed && c[j] !in needed && !SameWindow(i, j, batch);
    WindowOf(i, k, batch);
    WindowOf(j, k, batch);
    other := if i / batch != k then i else j;
  }

  // As long as no window held a prunable root the contract is unchanged; the first that does lets the
  // host move one of the others behind the scan.
  lemma {:induction false} SomeHostHidesOne(states: seq<seq<Root>>, batch: nat, needed: set<Root>)
    returns (full: seq<seq<Root>>)
    requires batch > 0 && Scanned(states, batch, needed) && states[|states| - 1] == states[0]
    requires !OneWindow(states[0], batch, needed) && Behind(states[0], Offset(|states| - 1, batch), needed)
    ensures FullScan(full, batch, needed) && full[0] == states[0] && !Clean(full[|full| - 1], needed)
    decreases Max(0, |states[0]| - Offset(|states| - 1, batch))
  {
    var c, k := states[0], |states| - 1;
    var offset := Offset(k, batch);
    var other := OneBeyond(c, k, batch, needed);
    if WindowIndices(c, offset, batch, needed) == [] {
      EmptyWindowMoves(c, offset, batch, needed);
      ScannedExtends(states, batch, needed, c);
      full := SomeHostHidesOne(states + [c], batch, needed);
    } else {
      var after := HidingRound(c, offset, batch, needed, other);
      ScannedExtends(states, batch, needed, after);
      full := MissedForever(states + [after], batch, needed);
    }
  }

  // Pruning removes everything prunable whatever order hosts leave the sectors in, if and only if the
  // prunable roots all lie in one window.
  lemma CompleteIffOneWindow(contents: seq<Root>, batch: nat, needed: set<Root>)
    requires batch > 0
    ensures OneWindow(contents, batch, needed) <==>
      forall states {:trigger FullScan(states, batch, needed)} :: FullScan(states, batch, needed) && states[0] == contents ==>
        Clean(states[|states| - 1], needed)
  {
    if OneWindow(contents, batch, needed) {
      forall states | FullScan(states, batch, needed) && states[0] == contents
        ensures Clean(states[|states| - 1], needed)
      {
        ScanOfOneWindow(states, |states| - 1, batch, needed);
      }
    } else {
      var full := SomeHostHidesOne([contents], batch, needed);
      assert full[0] == contents;
    }
  }

  // A contract that fits one batch is always pruned completely.
  lemma FitsOneBatch(states: seq<seq<Root>>, batch: nat, needed: set<Root>)
    requires 0 < batch && FullScan(states, batch, needed) && |states[0]| <= batch
    ensures Clean(states[|states| - 1], needed)
  {
    forall i: nat | i < |states[0]| ensures i / batch == 0 {
      WindowOf(i, 0, batch);
    }
    CompleteIffOneWindow(states[0], batch, needed);
  }

  // --- a host that refills freed slots from the tail ---

  lemma {:induction false} IndicesFit(window: seq<Root>, offset: nat, bound: nat, needed: set<Root>)
    requires offset + |window| <= bound
    ensures Ascending(PrunableIndices(window, offset, needed), offset, bound)
    ensures Ascending(PrunableIndices(window, offset, needed), 0, bound)
  {
    if window != [] {
      var rest := PrunableIndices(window[1..], offset + 1, needed);
      IndicesFit(window[1..], offset + 1, bound, needed);
      AscendingFromLower(rest, offset + 1, offset, bound);
      assert [offset] + rest != [] && ([offset] + rest)[1..] == rest && [] + rest == rest;
    }
  }

  // One pass on such a host.
  function TailRound(c: seq<Root>, offset: nat, batch: nat, needed: set<Root>): (after: seq<Root>)
    requires offset < |c|
    ensures |after| <= |c|
  {
    IndicesFit(Window(c, offset, batch), offset, |c|, needed);
    Refilled(c, WindowIndices(c, offset, batch, needed), 0)
  }

  // The whole scan, from an offset on.
  function TailScan(c: seq<Root>, offset: nat, batch: nat, needed: set<Root>): seq<Root>
    requires batch > 0
    decreases Max(0, |c| - offset)
  {
    if offset >= |c| then c else TailScan(TailRound(c, offset, batch, needed), offset + batch, batch, needed)
  }

  // What the scan moves behind itself is never prunable: each window takes as many sectors from the tail
  // of what is still unscanned as it frees.
  predicate TailClean(rest: seq<Root>, batch: nat, needed: set<Root>)
    requires batch > 0
    decreases |rest|
  {
    rest != [] ==>
      var n := Min(batch, |rest|);
      var later := rest[n..];
      var moved := Min(|Prunable(rest[..n], needed)|, |later|);
      Clean(later[|later| - moved..], needed) && TailClean(later[..|later| - moved], batch, needed)
  }

  lemma LowIsIrrelevant(c: seq<Root>, indices: seq<nat>, low: nat)
    requires Ascending(indices, low, |c|) && low <= |c|
    ensures Ascending(indices, 0, |c|) && Refilled(c, indices, 0) == Refilled(c, indices, low)
  {
    AscendingFromLower(indices, low, 0, |c|);
  }

  // Refilling slots of the front part takes from the end of the back part.
  lemma {:induction false} RefillTakesTail(a: seq<Root>, r: seq<Root>, indices: seq<nat>, low: nat)
    requires Ascending(indices, low, |a|) && Ascending(indices, low, |a + r|) && low <= |a| && |indices| <= |r|
    ensures var after := Refilled(a + r, indices, low);
      |after| == |a| + |r| - |indices| && after[|a|..] == r[..|r| - |indices|]
    decreases |indices|
  {
    if indices != [] {
      var i := indices[0];
      RefillTakesTail(a, r, indices[1..], i + 1);
      var rest := Refilled(a + r, indices[1..], i + 1);
      var after := RefillFromTail(rest, i);
      assert after[|a|..] == rest[|a|..][..|rest| - |a| - 1];
    } else {
      assert (a + r)[|a|..] == r;
    }
  }

  lemma CleanParts(a: seq<Root>, b: seq<Root>, needed: set<Root>)
    ensures Clean(a + b, needed) <==> Clean(a, needed) && Clean(b, needed)
  {
    if Clean(a + b, needed) {
      forall i | 0 <= i < |a| ensures a[i] in needed {
        assert (a + b)[i] == a[i];
      }
      forall i | 0 <= i < |b| ensures b[i] in needed {
        assert (a + b)[|a| + i] == b[i];
      }
    }
  }

  lemma CleanByMembers(s: seq<Root>, needed: set<Root>)
    ensures Clean(s, needed) <==> forall r :: r in multiset(s) ==> r in needed
  {
    if forall r :: r in multiset(s) ==> r in needed {
      forall i | 0 <= i < |s| ensures s[i] in needed {
        assert s[i] in multiset(s);
      }
    }
    if Clean(s, needed) {
      forall r | r in multiset(s) ensures r in needed {
        assert r in s;
      }
    }
  }

  lemma CancelRight(a: multiset<Root>, b: multiset<Root>, c: multiset<Root>)
    requires a + c == b + c
    ensures a == b
  {
    forall r: Root ensures a[r] == b[r] {
      assert (a + c)[r] == (b + c)[r];
    }
  }

  // What takes the place of a window: its needed roots and the moved ones, in some order.
  lemma WindowAfter(w: seq<Root>, moved: seq<Root>, after: seq<Root>, needed: set<Root>)
    requires multiset(w) + multiset(moved) == multiset(after) + multiset(Prunable(w, needed))
    ensures Clean(after, needed) <==> Clean(moved, needed)
  {
    var kept, gone := multiset(StillNeeded(w, needed)), multiset(Prunable(w, needed));
    SplitWindow(w, needed);
    assert multiset(w) + multiset(moved) == kept + multiset(moved) + gone;
    CancelRight(multiset(after), kept + multiset(moved), gone);
    CleanByMembers(after, needed);
    CleanByMembers(moved, needed);
    forall r | r in kept ensures r in needed {
      CountPrunable(w, needed, r);
    }
  }

  // What a pass over the window w makes of front + w + later: the front stays, the prunable roots of the
  // window are gone, and as many sectors are taken from the end if there are that many.
  ghost predicate Passed(front: seq<Root>, w: seq<Root>, later: seq<Root>, needed: set<Root>, after: seq<Root>) {
    var gone := Prunable(w, needed);
    && |after| + |gone| == |front| + |w| + |later|
    && |front| <= |after| && after[..|front|] == front
    && multiset(front + w + later) == multiset(after) + multiset(gone)
    && (|gone| <= |later| ==> after[|front| + |w|..] == later[..|later| - |gone|])
  }

  lemma {:induction false} AsManyIndices(window: seq<Root>, offset: nat, needed: set<Root>)
    ensures |PrunableIndices(window, offset, needed)| == |Prunable(window, needed)|
  {
    if window != [] {
      AsManyIndices(window[1..], offset + 1, needed);
    }
  }

  lemma RefilledTail(front: seq<Root>, w: seq<Root>, later: seq<Root>, indices: seq<nat>, after: seq<Root>)
    requires Ascending(indices, |front|, |front + w|) && Ascending(indices, |front|, |front + w + later|)
    requires |indices| <= |later| && after == Refilled(front + w + later, indices, |front|)
    ensures |front + w| <= |after| && after[|front + w|..] == later[..|later| - |indices|]
  {
    RefillTakesTail(front + w, later, indices, |front|);
  }

  lemma FreedParts(front: seq<Root>, w: seq<Root>, later: seq<Root>, needed: set<Root>, after: seq<Root>)
    requires Freed(front + w + later, PrunableIndices(w, |front|, needed), after)
    ensures multiset(front + w + later) == multiset(after) + multiset(Prunable(w, needed))
  {
    var c := front + w + later;
    assert c[|front|..|front| + |w|] == w;
    PickedIsPrunable(c, |front|, w, needed);
  }

  lemma RefilledCounts(front: seq<Root>, w: seq<Root>, later: seq<Root>, needed: set<Root>, after: seq<Root>)
    requires Ascending(PrunableIndices(w, |front|, needed), |front|, |front + w + later|)
    requires after == Refilled(front + w + later, PrunableIndices(w, |front|, needed), |front|)
    ensures multiset(front + w + later) == multiset(after) + multiset(Prunable(w, needed))
    ensures |front| <= |after| && after[..|front|] == front
  {
    RefilledIsFreed(front + w + later, PrunableIndices(w, |front|, needed), |front|);
    FreedParts(front, w, later, needed, after);
    assert (front + w + later)[..|front|] == front;
  }

  lemma RefilledEnd(front: seq<Root>, w: seq<Root>, later: seq<Root>, needed: set<Root>, indices: seq<nat>, after: seq<Root>)
    requires indices == PrunableIndices(w, |front|, needed) && Ascending(indices, |front|, |front + w + later|)
    requires after == Refilled(front + w + later, indices, |front|) && |indices| <= |later|
    ensures |front| + |w| <= |after| && after[|front| + |w|..] == later[..|later| - |indices|]
  {
    IndicesFit(w, |front|, |front + w|, needed);
    RefilledTail(front, w, later, indices, after);
  }

  lemma RefilledHasPassed(front: seq<Root>, w: seq<Root>, later: seq<Root>, needed: set<Root>, indices: seq<nat>, after: seq<Root>)
    requires indices == PrunableIndices(w, |front|, needed) && Ascending(indices, |front|, |front + w + later|)
    requires after == Refilled(front + w + later, indices, |front|)
    ensures Passed(front, w, later, needed, after)
  {
    AsManyIndices(w, |front|, needed);
    RefilledCounts(front, w, later, needed, after);
    if |indices| <= |later| {
      RefilledEnd(front, w, later, needed, indices, after);
    }
  }

  lemma Rearranged(front: seq<Root>, w: seq<Root>, left: seq<Root>, moved: seq<Root>, placed: seq<Root>, gone: seq<Root>)
    requires multiset(front + w + (left + moved)) == multiset(front + placed + left) + multiset(gone)
    ensures multiset(w) + multiset(moved) == multiset(placed) + multiset(gone)
  {
    var rest := multiset(front) + multiset(left);
    assert multiset(front + w + (left + moved)) == multiset(w) + multiset(moved) + rest;
    assert multiset(front + placed + left) + multiset(gone) == multiset(placed) + multiset(gone) + rest;
    CancelRight(multiset(w) + multiset(moved), multiset(placed) + multiset(gone), rest);
  }

  lemma TakenApart(after: seq<Root>, front: seq<Root>, n: nat, left: seq<Root>) returns (placed: seq<Root>)
    requires |front| + n <= |after| && after[..|front|] == front && after[|front| + n..] == left
    ensures after == front + placed + left && |placed| == n
  {
    placed := after[|front|..|front| + n];
  }

  // With as many later sectors as freed ones at least.
  lemma RoundTakesTail(front: seq<Root>, w: seq<Root>, later: seq<Root>, needed: set<Root>, after: seq<Root>)
    returns (placed: seq<Root>, left: seq<Root>)
    requires Passed(front, w, later, needed, after) && |Prunable(w, needed)| <= |later|
    ensures after == front + placed + left && |placed| == |w| && left == later[..|later| - |Prunable(w, needed)|]
    ensures Clean(placed, needed) <==> Clean(later[|later| - |Prunable(w, needed)|..], needed)
  {
    var n := |later| - |Prunable(w, needed)|;
    left := later[..n];
    var moved := later[n..];
    placed := TakenApart(after, front, |w|, left);
    assert later == left + moved;
    Rearranged(front, w, left, moved, placed, Prunable(w, needed));
    WindowAfter(w, moved, placed, needed);
  }

  // With fewer: the scan ends behind it.
  lemma LastRound(front: seq<Root>, w: seq<Root>, later: seq<Root>, needed: set<Root>, after: seq<Root>)
    returns (placed: seq<Root>)
    requires Passed(front, w, later, needed, after) && |Prunable(w, needed)| > |later|
    ensures after == front + placed && |placed| < |w| && (Clean(placed, needed) <==> Clean(later, needed))
  {
    placed := after[|front|..];
    assert after == after[..|front|] + placed;
    assert [] + later == later && front + placed + [] == after;
    Rearranged(front, w, [], later, placed, Prunable(w, needed));
    WindowAfter(w, later, placed, needed);
  }

  predicate StepClean(w: seq<Root>, later: seq<Root>, batch: nat, needed: set<Root>)
    requires batch > 0
  {
    var moved := Min(|Prunable(w, needed)|, |later|);
    Clean(later[|later| - moved..], needed) && TailClean(later[..|later| - moved], batch, needed)
  }

  lemma TailCleanStep(w: seq<Root>, later: seq<Root>, batch: nat, needed: set<Root>)
    requires batch > 0 && 0 < |w| <= batch && (later == [] || |w| == batch)
    ensures TailClean(w + later, batch, needed) <==> StepClean(w, later, batch, needed)
  {
    var n := Min(batch, |w + later|);
    assert (w + later)[..n] == w && (w + later)[n..] == later;
  }

  // Where the scan goes on after a pass.
  ghost predicate GoesOn(after: seq<Root>, done: seq<Root>, left: seq<Root>, next: nat) {
    after == done + left && |done| <= next && (left == [] || |done| == next)
  }

  lemma StepWithin(w: seq<Root>, later: seq<Root>, batch: nat, needed: set<Root>, moved: seq<Root>, left: seq<Root>)
    requires batch > 0 && |Prunable(w, needed)| <= |later|
    requires moved == later[|later| - |Prunable(w, needed)|..] && left == later[..|later| - |Prunable(w, needed)|]
    ensures StepClean(w, later, batch, needed) <==> Clean(moved, needed) && TailClean(left, batch, needed)
  {
  }

  lemma PassWithinLater(front: seq<Root>, w: seq<Root>, later: seq<Root>, batch: nat, needed: set<Root>, after: seq<Root>)
    returns (done: seq<Root>, left: seq<Root>)
    requires batch > 0 && 0 < |w| <= batch && (later == [] || |w| == batch)
    requires Passed(front, w, later, needed, after) && |Prunable(w, needed)| <= |later|
    ensures GoesOn(after, done, left, |front| + batch)
    ensures Clean(done, needed) && TailClean(left, batch, needed) <==> Clean(front, needed) && StepClean(w, later, batch, needed)
  {
    var placed;
    placed, left := RoundTakesTail(front, w, later, needed, after);
    StepWithin(w, later, batch, needed, later[|later| - |Prunable(w, needed)|..], left);
    done := front + placed;
    CleanParts(front, placed, needed);
  }

  lemma PassBeyondLater(front: seq<Root>, w: seq<Root>, later: seq<Root>, batch: nat, needed: set<Root>, after: seq<Root>)
    returns (done: seq<Root>, left: seq<Root>)
    requires batch > 0 && 0 < |w| <= batch && Passed(front, w, later, needed, after) && |Prunable(w, needed)| > |later|
    ensures GoesOn(after, done, left, |front| + batch)
    ensures Clean(done, needed) && TailClean(left, batch, needed) <==> Clean(front, needed) && StepClean(w, later, batch, needed)
  {
    var placed := LastRound(front, w, later, needed, after);
    done, left := front + placed, [];
    AllTaken(later, after, done);
    CleanParts(front, placed, needed);
  }

  // One pass, and what is left for the following ones.
  lemma PassIff(front: seq<Root>, w: seq<Root>, later: seq<Root>, batch: nat, needed: set<Root>, after: seq<Root>)
    returns (done: seq<Root>, left: seq<Root>)
    requires batch > 0 && 0 < |w| <= batch && (later == [] || |w| == batch)
    requires Passed(front, w, later, needed, after)
    ensures GoesOn(after, done, left, |front| + batch)
    ensures Clean(done, needed) && TailClean(left, batch, needed) <==> Clean(front, needed) && TailClean(w + later, batch, needed)
  {
    if |Prunable(w, needed)| <= |later| {
      done, left := PassWithinLater(front, w, later, batch, needed, after);
    } else {
      done, left := PassBeyondLater(front, w, later, batch, needed, after);
    }
    TailCleanStep(w, later, batch, needed);
  }

  lemma AllTaken(later: seq<Root>, after: seq<Root>, done: seq<Root>)
    requires after == done
    ensures later[|later| - |later|..] == later && later[..|later| - |later|] == [] && after == done + []
  {
  }

  lemma WindowParts(c: seq<Root>, offset: nat, batch: nat) returns (w: seq<Root>, later: seq<Root>)
    requires batch > 0 && offset < |c|
    ensures 0 < |w| <= batch && (later == [] || |w| == batch) && c[offset..] == w + later
    ensures Window(c, offset, batch) == w && c == c[..offset] + w + later
  {
    var rest := c[offset..];
    var n := Min(batch, |rest|);
    w, later := rest[..n], rest[n..];
  }

  lemma RoundOfParts(c: seq<Root>, front: seq<Root>, w: seq<Root>, later: seq<Root>, batch: nat, needed: set<Root>)
    requires |front| < |c| && c == front + w + later && Window(c, |front|, batch) == w
    ensures Passed(front, w, later, needed, TailRound(c, |front|, batch, needed))
  {
    var indices := PrunableIndices(w, |front|, needed);
    IndicesFit(w, |front|, |c|, needed);
    LowIsIrrelevant(c, indices, |front|);
    RefilledHasPassed(front, w, later, needed, indices, TailRound(c, |front|, batch, needed));
  }

  lemma TailRoundIff(c: seq<Root>, offset: nat, batch: nat, needed: set<Root>) returns (done: seq<Root>, left: seq<Root>)
    requires batch > 0 && offset < |c|
    ensures GoesOn(TailRound(c, offset, batch, needed), done, left, offset + batch)
    ensures Clean(done, needed) && TailClean(left, batch, needed) <==> Clean(c[..offset], needed) && TailClean(c[offset..], batch, needed)
  {
    var w, later := WindowParts(c, offset, batch);
    RoundOfParts(c, c[..offset], w, later, batch, needed);
    done, left := PassIff(c[..offset], w, later, batch, needed, TailRound(c, offset, batch, needed));
  }

  // The scan once it is at the end of done.
  lemma ScanPast(done: seq<Root>, left: seq<Root>, offset: nat, batch: nat, needed: set<Root>)
    requires batch > 0 && |done| <= offset && (left == [] || |done| == offset)
    ensures left == [] ==> TailScan(done + left, offset, batch, needed) == done && TailClean(left, batch, needed)
    ensures left != [] ==> (done + left)[..offset] == done && (done + left)[offset..] == left
  {
    if left == [] {
      assert done + left == done;
    }
  }

  // On such a host the scan leaves nothing prunable if and only if nothing prunable is moved behind it.
  lemma {:induction false} TailScanIff(c: seq<Root>, offset: nat, batch: nat, needed: set<Root>)
    requires batch > 0 && offset <= |c|
    ensures Clean(TailScan(c, offset, batch, needed), needed) <==> Clean(c[..offset], needed) && TailClean(c[offset..], batch, needed)
    decreases |c| - offset
  {
    if offset < |c| {
      var done, left := TailRoundIff(c, offset, batch, needed);
      ScanPast(done, left, offset + batch, batch, needed);
      if left != [] {
        TailScanIff(done + left, offset + batch, batch, needed);
      }
    } else {
      assert c[..offset] == c && c[offset..] == [];
    }
  }

  // How much of the contract the scan has not seen.
  function Ahead(c: seq<Root>, k: nat, batch: nat): nat {
    Max(0, |c| - Offset(k, batch))
  }

  lemma TailRoundIsRound(c: seq<Root>, offset: nat, batch: nat, needed: set<Root>)
    requires offset < |c|
    ensures Round(c, offset, batch, needed, TailRound(c, offset, batch, needed))
  {
    IndicesFit(Window(c, offset, batch), offset, |c|, needed);
    RefilledIsFreed(c, WindowIndices(c, offset, batch, needed), 0);
  }

  lemma TailScanStep(c: seq<Root>, offset: nat, batch: nat, needed: set<Root>, after: seq<Root>)
    requires batch > 0 && offset < |c| && after == TailRound(c, offset, batch, needed)
    ensures TailScan(c, offset, batch, needed) == TailScan(after, offset + batch, batch, needed)
  {
  }

  lemma AheadDrops(c: seq<Root>, k: nat, batch: nat, after: seq<Root>)
    requires batch > 0 && Offset(k, batch) < |c| && |after| <= |c|
    ensures Ahead(after, k + 1, batch) < Ahead(c, k, batch)
  {
  }

  ghost predicate ScannedTo(states: seq<seq<Root>>, k: nat, batch: nat, needed: set<Root>, c: seq<Root>) {
    Scanned(states, batch, needed) && |states| == k + 1 && states[k] == c
  }

  lemma ScannedToNext(states: seq<seq<Root>>, k: nat, batch: nat, needed: set<Root>, c: seq<Root>, after: seq<Root>)
    requires ScannedTo(states, k, batch, needed, c) && Round(c, Offset(k, batch), batch, needed, after)
    ensures ScannedTo(states + [after], k + 1, batch, needed, after) && (states + [after])[0] == states[0]
  {
    ScannedExtends(states, batch, needed, after);
  }

  // The rest of the scan ends with end.
  ghost predicate EndsWith(c: seq<Root>, k: nat, batch: nat, needed: set<Root>, end: seq<Root>)
    requires batch > 0
  {
    TailScan(c, Offset(k, batch), batch, needed) == end
  }

  lemma NextWindow(c: seq<Root>, k: nat, batch: nat, needed: set<Root>, end: seq<Root>) returns (after: seq<Root>)
    requires batch > 0 && Offset(k, batch) < |c| && EndsWith(c, k, batch, needed, end)
    ensures after == TailRound(c, Offset(k, batch), batch, needed) && EndsWith(after, k + 1, batch, needed, end)
  {
    after := TailRound(c, Offset(k, batch), batch, needed);
    TailScanStep(c, Offset(k, batch), batch, needed, after);
  }

  // The scan from its k-th window on.
  lemma {:induction false} TailScanExtends(states: seq<seq<Root>>, k: nat, c: seq<Root>, batch: nat, needed: set<Root>,
        end: seq<Root>)
    returns (full: seq<seq<Root>>, last: nat)
    requires batch > 0 && ScannedTo(states, k, batch, needed, c) && EndsWith(c, k, batch, needed, end)
    ensures ScannedTo(full, last, batch, needed, end) && full[0] == states[0] && |end| <= Offset(last, batch)
    decreases Ahead(c, k, batch)
  {
    if Offset(k, batch) >= |c| {
      return states, k;
    }
    var after := NextWindow(c, k, batch, needed, end);
    TailRoundIsRound(c, Offset(k, batch), batch, needed);
    AheadDrops(c, k, batch, after);
    ScannedToNext(states, k, batch, needed, c, after);
    full, last := TailScanExtends(states + [after], k + 1, after, batch, needed, end);
  }

  // Such a scan is one of the scans above.
  lemma TailScanIsScan(contents: seq<Root>, batch: nat, needed: set<Root>) returns (full: seq<seq<Root>>)
    requires batch > 0
    ensures FullScan(full, batch, needed) && full[0] == contents
    ensures full[|full| - 1] == TailScan(contents, 0, batch, needed)
  {
    var last;
    full, last := TailScanExtends([contents], 0, contents, batch, needed, TailScan(contents, 0, batch, needed));
  }

  lemma PrunableOfTwo(x: Root, y: Root, needed: set<Root>)
    requires x !in needed && y in needed
    ensures Prunable([x, y], needed) == [x]
  {
    assert [x, y][1..] == [y] && [y][1..] == [];
    assert Prunable([y], needed) == [] + Prunable([], needed);
  }

  // Two windows with prunable roots, and still complete on such a host.
  lemma TailCanComplete()
    ensures !OneWindow([1, 2, 1, 2], 2, {2}) && Clean(TailScan([1, 2, 1, 2], 0, 2, {2}), {2})
  {
    var c := [1, 2, 1, 2];
    assert c[0] !in {2} && c[2] !in {2} && !SameWindow(0, 2, 2);
    PrunableOfTwo(1, 2, {2});
    var later := c[2..];
    assert c[..2] == [1, 2] && later == [1, 2] && later[1..] == [2] && later[..1] == [1] && c[0..] == c;
    assert [1][..1] == [1] && [1][1..] == [];
    assert TailClean([1], 2, {2});
    assert TailClean(c, 2, {2});
    TailScanIff(c, 0, 2, {2});
  }

  // A contract such a host leaves incomplete: its last sector is moved into the first window.
  lemma TailCanMiss()
    ensures !Clean(TailScan([1, 2, 2, 1], 0, 2, {2}), {2})
  {
    var c := [1, 2, 2, 1];
    PrunableOfTwo(1, 2, {2});
    var later := c[2..];
    assert c[..2] == [1, 2] && later == [2, 1] && later[1..] == [1] && c[0..] == c;
    assert [1][0] !in {2};
    TailScanIff(c, 0, 2, {2});
  }

  // --- the operation ---

  // Every needed root is held as often as before, and nothing was added.
  ghost predicate NothingNeededLost(before: seq<Root>, after: seq<Root>, needed: set<Root>) {
    && multiset(after) <= multiset(before)
    && forall r :: r in needed ==> multiset(after)[r] == multiset(before)[r]
  }

  lemma FreedKeepsNeeded(before: seq<Root>, offset: nat, window: seq<Root>, needed: set<Root>, after: seq<Root>)
    requires offset + |window| <= |before| && before[offset..offset + |window|] == window
    requires Freed(before, PrunableIndices(window, offset, needed), after)
    ensures NothingNeededLost(before, after, needed)
    ensures |before| == |after| + |PrunableIndices(window, offset, needed)|
  {
    FreedLength(before, PrunableIndices(window, offset, needed), after);
    forall r | r in needed ensures multiset(after)[r] == multiset(before)[r] {
      NeededSurvives(before, offset, window, needed, after, r);
    }
  }

  function NeededBy(db: Database, id: ContractID): set<Root>
    reads db
  {
    if id in db.contracts then Needed(db.sectors, id, db.contracts[id].host) else {}
  }

  // The indices to free, from the looked-up roots.
  method MarkIndices(roots: seq<Root>, offset: nat, prunable: set<Root>, ghost needed: set<Root>) returns (indices: seq<nat>)
    requires forall x :: x in prunable <==> x in Prunable(roots, needed)
    ensures indices == PrunableIndices(roots, offset, needed)
  {
    indices := [];
    for i := 0 to |roots|
      invariant indices == PrunableIndices(roots[..i], offset, needed)
    {
      IndicesSplit(roots[..i], roots[i], offset, needed);
      assert roots[..i + 1] == roots[..i] + [roots[i]];
      InPrunable(roots, needed, roots[i]);
      if roots[i] in prunable {
        indices := indices + [offset + i];
      }
    }
    assert roots[..|roots|] == roots;
  }

  lemma {:induction false} IndicesSplit(a: seq<Root>, r: Root, offset: nat, needed: set<Root>)
    ensures PrunableIndices(a + [r], offset, needed)
      == PrunableIndices(a, offset, needed) + (if r in needed then [] else [offset + |a|])
  {
    if a == [] {
      assert a + [r] == [r] && [r][1..] == [];
    } else {
      IndicesSplit(a[1..], r, offset + 1, needed);
      assert (a + [r])[1..] == a[1..] + [r] && (a + [r])[0] == a[0];
      var first := if a[0] in needed then [] else [offset];
      var rest, last := PrunableIndices(a[1..], offset + 1, needed), if r in needed then [] else [offset + |a|];
      assert first + (rest + last) == (first + rest) + last;
    }
  }

  // The first half of a pass of the loop: fetch a window and look up what is prunable.
  method PickWindow(db: Database, host: HostContract, id: ContractID, offset: nat, length: nat)
    returns (picked: Result<seq<nat>, ()>)
    requires id in db.contracts && 0 < length
    ensures picked.Ok? ==> offset + length <= |host.contents|
    ensures picked.Ok? ==> picked.value == PrunableIndices(host.contents[offset..offset + length], offset, NeededBy(db, id))
  {
    var fetched := host.SectorRoots(offset, length);
    if fetched.Err? {
      return Err(());
    }
    var prunable := db.LookupPrunable(id, fetched.value);
    if prunable.Err? {
      return Err(());
    }
    var indices := MarkIndices(fetched.value, offset, prunable.value, NeededBy(db, id));
    return Ok(indices);
  }

  // The second half: free the indices, when there are any.
  method FreeWindow(host: HostContract, indices: seq<nat>, offset: nat, length: nat, ghost needed: set<Root>)
    returns (ok: bool)
    requires offset + length <= |host.contents|
    requires indices == PrunableIndices(host.contents[offset..offset + length], offset, needed)
    modifies host
    ensures NothingNeededLost(old(host.contents), host.contents, needed)
    ensures ok ==> |host.contents| + |indices| == |old(host.contents)|
    ensures ok ==> if indices == [] then host.contents == old(host.contents) else Freed(old(host.contents), indices, host.contents)
  {
    if indices == [] {
      return true;
    }
    ghost var before := host.contents;
    ghost var window := before[offset..offset + length];
    PickedIsPrunable(before, offset, window, needed);
    ok := host.FreeSectors(indices);
    if Freed(before, indices, host.contents) {
      FreedKeepsNeeded(before, offset, window, needed, host.contents);
    }
  }

  // One pass of the loop.
  method PruneWindow(db: Database, host: HostContract, id: ContractID, offset: nat, length: nat, ghost batch: nat)
    returns (freed: nat, failed: bool)
    requires id in db.contracts && 0 < length
    modifies host
    ensures NothingNeededLost(old(host.contents), host.contents, NeededBy(db, id))
    ensures !failed ==> |host.contents| + freed == |old(host.contents)| && freed <= length
    ensures !failed && length == Min(batch, |old(host.contents)| - offset) ==>
      Round(old(host.contents), offset, batch, NeededBy(db, id), host.contents)
  {
    var picked := PickWindow(db, host, id, offset, length);
    if picked.Err? {
      return 0, true;
    }
    var ok := FreeWindow(host, picked.value, offset, length, NeededBy(db, id));
    return |picked.value|, !ok;
  }

  // batch is the manager's sectorRootsBatchSize. rounds lists the contract's contents after each window.
  method PruneContract(db: Database, host: HostContract, id: ContractID, batch: nat)
    returns (pruned: nat, failed: bool, ghost rounds: seq<seq<Root>>)
    requires 0 < batch
    modifies host
    ensures NothingNeededLost(old(host.contents), host.contents, NeededBy(db, id))
    // what is reported as pruned is gone; without an error nothing else is
    ensures |host.contents| + pruned <= |old(host.contents)|
    ensures !failed ==> |host.contents| + pruned == |old(host.contents)|
    ensures !failed ==> id in db.contracts
    ensures !failed && db.contracts[id].renewed ==> pruned == 0 && host.contents == old(host.contents)
    ensures !failed && !db.contracts[id].renewed && db.contracts[id].sectors == |old(host.contents)| ==>
      FullScan(rounds, batch, NeededBy(db, id)) && rounds[0] == old(host.contents) && rounds[|rounds| - 1] == host.contents
  {
    rounds := [host.contents];
    pruned, failed := 0, false;
    var fails: bool := *;
    if id !in db.contracts || fails {
      return 0, true, rounds;
    }
    if db.contracts[id].renewed {
      return 0, false, rounds;
    }
    ghost var needed := NeededBy(db, id);
    var contractSectors := db.contracts[id].sectors;
    ghost var whole := contractSectors == |host.contents|;
    var offset := 0;
    while offset < contractSectors
      invariant NothingNeededLost(old(host.contents), host.contents, needed)
      invariant pruned + contractSectors == db.contracts[id].sectors
      invariant |host.contents| + pruned == |old(host.contents)|
      invariant rounds != [] && offset == Offset(|rounds| - 1, batch)
      invariant whole ==> Scanned(rounds, batch, needed) && rounds[0] == old(host.contents)
      invariant rounds[|rounds| - 1] == host.contents
      decreases contractSectors - offset
    {
      var length := Min(batch, contractSectors - offset);
      ghost var before := host.contents;
      var freed, windowFailed := PruneWindow(db, host, id, offset, length, batch);
      NothingLostTwice(old(host.contents), before, host.contents, needed);
      if windowFailed {
        return pruned, true, rounds;
      }
      if whole {
        ScannedExtends(rounds, batch, needed, host.contents);
      }
      rounds := rounds + [host.contents];
      pruned := pruned + freed;
      contractSectors := contractSectors - freed;
      offset := offset + batch;
    }
  }

  lemma NothingLostTwice(a: seq<Root>, b: seq<Root>, c: seq<Root>, needed: set<Root>)
    requires NothingNeededLost(a, b, needed) && NothingNeededLost(b, c, needed)
    ensures NothingNeededLost(a, c, needed) && |c| <= |b|
  {
    assert multiset(b) == multiset(c) + (multiset(b) - multiset(c));
    assert |multiset(c)| == |c| && |multiset(b)| == |b|;
  }
}
