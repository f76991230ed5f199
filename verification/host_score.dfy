// The order Provider keeps its hosts in, and the atomic picks of client/v2/hostqueue.go. A metric is a
// snapshot at the time the lock is held: failRate is what the decayed failure rate shows then. Floats
// are reals.
module HostScore {
  import opened Common

  type HostKey = nat

  datatype Metric = Metric(failRate: real, readAverage: Option<real>, writeAverage: Option<real>, inflightReads: nat, inflightWrites: nat) {
    function CombinedThroughput(): Option<real> {
      if readAverage.Some? && writeAverage.Some? then Some((readAverage.value + writeAverage.value) / 2.0)
      else if readAverage.Some? then readAverage
      else writeAverage
    }

    function Inflight(): nat {
      inflightReads + inflightWrites
    }
  }

  type Metrics = map<HostKey, Metric>

  const NEW_METRIC := Metric(0.0, None, None, 0, 0)

  function Compare(x: real, y: real): int {
    if x < y then -1 else if x > y then 1 else 0
  }

  // The throughput one more shard could expect.
  function Expected(throughput: real, inflight: nat): real {
    throughput / (inflight + 1) as real
  }

  // cmpMetrics: negative when a sorts ahead of b.
  function CmpMetrics(ms: Metrics, a: HostKey, b: HostKey): int {
    if a !in ms && b !in ms then 0
    else if a !in ms then -1
    else if b !in ms then 1
    else
      var c := Compare(ms[a].failRate, ms[b].failRate);
      if c != 0 then c
      else
        var at, bt := ms[a].CombinedThroughput(), ms[b].CombinedThroughput();
        if at.None? && bt.None? then Compare(ms[a].Inflight() as real, ms[b].Inflight() as real)
        else if at.None? then -1
        else if bt.None? then 1
        else Compare(Expected(bt.value, ms[b].Inflight()), Expected(at.value, ms[a].Inflight()))
  }

  // --- a total preorder ---

  type Order = (HostKey, HostKey) -> int

  predicate Reflexive(cmp: Order, a: HostKey) {
    cmp(a, a) == 0
  }

  predicate Antisymmetric(cmp: Order, a: HostKey, b: HostKey) {
    cmp(a, b) == -cmp(b, a)
  }

  predicate Transitive(cmp: Order, a: HostKey, b: HostKey, c: HostKey) {
    cmp(a, b) <= 0 && cmp(b, c) <= 0 ==> cmp(a, c) <= 0 && (cmp(a, b) < 0 || cmp(b, c) < 0 ==> cmp(a, c) < 0)
  }

  ghost predicate TotalPreorder(cmp: Order) {
    && (forall a {:trigger Reflexive(cmp, a)} :: Reflexive(cmp, a))
    && (forall a, b {:trigger Antisymmetric(cmp, a, b)} :: Antisymmetric(cmp, a, b))
    && (forall a, b, c {:trigger Transitive(cmp, a, b, c)} :: Transitive(cmp, a, b, c))
  }

  function ByScore(ms: Metrics): Order {
    (a: HostKey, b: HostKey) => CmpMetrics(ms, a, b)
  }

  // For fixed metrics the comparison is a total preorder.
  lemma ScoreIsTotalPreorder(ms: Metrics)
    ensures TotalPreorder(ByScore(ms))
  {
    forall a, b, c ensures Transitive(ByScore(ms), a, b, c) {
      if CmpMetrics(ms, a, b) <= 0 && CmpMetrics(ms, b, c) <= 0 {
        ScoreIsTransitive(ms, a, b, c);
      }
    }
  }

  lemma ScoreIsTransitive(ms: Metrics, a: HostKey, b: HostKey, c: HostKey)
    requires CmpMetrics(ms, a, b) <= 0 && CmpMetrics(ms, b, c) <= 0
    ensures CmpMetrics(ms, a, c) <= 0
    ensures CmpMetrics(ms, a, b) < 0 || CmpMetrics(ms, b, c) < 0 ==> CmpMetrics(ms, a, c) < 0
  {
  }

  // --- reservations ---

  function Metric0(ms: Metrics, h: HostKey): Metric {
    if h in ms then ms[h] else NEW_METRIC
  }

  function ReserveWrite(ms: Metrics, h: HostKey): Metrics {
    ms[h := Metric0(ms, h).(inflightWrites := Metric0(ms, h).inflightWrites + 1)]
  }

  function ReserveRead(ms: Metrics, h: HostKey): Metrics {
    ms[h := Metric0(ms, h).(inflightReads := Metric0(ms, h).inflightReads + 1)]
  }

  function ReserveReads(ms: Metrics, hosts: seq<HostKey>): Metrics {
    if hosts == [] then ms else ReserveRead(ReserveReads(ms, hosts[..|hosts| - 1]), hosts[|hosts| - 1])
  }

  ghost predicate NonNegative(ms: Metrics) {
    forall h :: h in ms ==>
      && ms[h].failRate >= 0.0
      && (ms[h].readAverage.Some? ==> ms[h].readAverage.value >= 0.0)
      && (ms[h].writeAverage.Some? ==> ms[h].writeAverage.value >= 0.0)
  }

  lemma MoreInflightExpectsLess(throughput: real, n: nat)
    requires throughput >= 0.0
    ensures Expected(throughput, n + 1) <= Expected(throughput, n)
  {
    var x, m := throughput, (n + 1) as real;
    assert x / (m + 1.0) <= x / m by {
      assert x / m == x * (1.0 / m) && x / (m + 1.0) == x * (1.0 / (m + 1.0));
      SmallerReciprocal(m);
      Scaled(x, 1.0 / (m + 1.0), 1.0 / m);
    }
    assert (n + 2) as real == m + 1.0;
  }

  lemma SmallerReciprocal(m: real)
    requires m >= 1.0
    ensures 1.0 / (m + 1.0) <= 1.0 / m
  {
    var a, b := 1.0 / m, 1.0 / (m + 1.0);
    assert a * m == 1.0 && b * (m + 1.0) == 1.0;
    assert b > 0.0;
    assert b * m == 1.0 - b;
    assert (a - b) * m == b;
  }

  lemma Scaled(x: real, a: real, b: real)
    requires x >= 0.0 && a <= b
    ensures x * a <= x * b
  {
  }

  // A reservation, of either kind, never moves the host ahead of where it was.
  lemma ReservationDemotes(ms: Metrics, h: HostKey, other: HostKey)
    requires NonNegative(ms) && other != h
    ensures CmpMetrics(ReserveRead(ms, h), h, other) >= CmpMetrics(ms, h, other)
    ensures CmpMetrics(ReserveWrite(ms, h), h, other) >= CmpMetrics(ms, h, other)
  {
    if h in ms && ms[h].CombinedThroughput().Some? {
      MoreInflightExpectsLess(ms[h].CombinedThroughput().value, ms[h].Inflight());
    }
  }

  // Each picked host gains as many reads as it was picked; nothing else changes.
  lemma {:induction false} ReservesEachPick(ms: Metrics, hosts: seq<HostKey>, h: HostKey)
    ensures Metric0(ReserveReads(ms, hosts), h) == Metric0(ms, h).(inflightReads := Metric0(ms, h).inflightReads + multiset(hosts)[h])
  {
    if hosts != [] {
      var n := |hosts| - 1;
      ReservesEachPick(ms, hosts[..n], h);
      assert hosts == hosts[..n] + [hosts[n]];
    }
  }

  // --- stable sorting by any order ---

  // No host is behind one that follows it.
  ghost predicate Sorted(cmp: Order, s: seq<HostKey>) {
    forall i, j :: 0 <= i < j < |s| ==> cmp(s[i], s[j]) <= 0
  }

  // The hosts ranked equal to c, in order.
  function SameRank(cmp: Order, s: seq<HostKey>, c: HostKey): seq<HostKey> {
    if s == [] then []
    else if cmp(s[0], c) == 0 then [s[0]] + SameRank(cmp, s[1..], c)
    else SameRank(cmp, s[1..], c)
  }

  // Equally ranked hosts keep their order; in particular nothing is lost or added.
  ghost predicate Stable(cmp: Order, before: seq<HostKey>, after: seq<HostKey>) {
    forall c :: SameRank(cmp, after, c) == SameRank(cmp, before, c)
  }

  // x goes in front of the first host it is not behind.
  function Insert(cmp: Order, x: HostKey, s: seq<HostKey>): (r: seq<HostKey>)
    ensures multiset(r) == multiset(s) + multiset{x}
  {
    if s == [] then [x]
    else if cmp(x, s[0]) <= 0 then [x] + s
    else
      assert s == [s[0]] + s[1..];
      [s[0]] + Insert(cmp, x, s[1..])
  }

  function StableSorted(cmp: Order, s: seq<HostKey>): (r: seq<HostKey>)
    ensures multiset(r) == multiset(s)
  {
    if s == [] then []
    else
      assert s == [s[0]] + s[1..];
      Insert(cmp, s[0], StableSorted(cmp, s[1..]))
  }

  lemma InSameMultiset(r: seq<HostKey>, s: seq<HostKey>, x: HostKey, i: nat)
    requires multiset(r) == multiset(s) + multiset{x} && i < |r|
    ensures r[i] == x || r[i] in s
  {
    assert r[i] in multiset(r);
  }

  lemma {:induction false} InsertSorts(cmp: Order, x: HostKey, s: seq<HostKey>)
    requires TotalPreorder(cmp) && Sorted(cmp, s)
    ensures Sorted(cmp, Insert(cmp, x, s))
  {
    if s != [] {
      if cmp(x, s[0]) <= 0 {
        forall j | 0 <= j < |s| ensures cmp(x, s[j]) <= 0 {
          assert Reflexive(cmp, s[0]) && Transitive(cmp, x, s[0], s[j]);
        }
      } else {
        var tail := s[1..];
        InsertSorts(cmp, x, tail);
        var rest := Insert(cmp, x, tail);
        forall j | 0 <= j < |rest| ensures cmp(s[0], rest[j]) <= 0 {
          InSameMultiset(rest, tail, x, j);
          assert Antisymmetric(cmp, x, s[0]);
        }
      }
    }
  }

  lemma {:induction false} InsertIsStable(cmp: Order, x: HostKey, s: seq<HostKey>, c: HostKey)
    requires TotalPreorder(cmp)
    ensures SameRank(cmp, Insert(cmp, x, s), c) == if cmp(x, c) == 0 then [x] + SameRank(cmp, s, c) else SameRank(cmp, s, c)
  {
    if s != [] {
      if cmp(x, s[0]) <= 0 {
        assert ([x] + s)[1..] == s;
      } else {
        InsertIsStable(cmp, x, s[1..], c);
        var rest := Insert(cmp, x, s[1..]);
        assert ([s[0]] + rest)[1..] == rest;
        assert Antisymmetric(cmp, s[0], c) && Transitive(cmp, x, c, s[0]); // not both rank as c
      }
    }
  }

  lemma {:induction false} StableSortedIsSorted(cmp: Order, s: seq<HostKey>)
    requires TotalPreorder(cmp)
    ensures Sorted(cmp, StableSorted(cmp, s)) && Stable(cmp, s, StableSorted(cmp, s))
  {
    if s != [] {
      StableSortedIsSorted(cmp, s[1..]);
      InsertSorts(cmp, s[0], StableSorted(cmp, s[1..]));
      forall c ensures SameRank(cmp, StableSorted(cmp, s), c) == SameRank(cmp, s, c) {
        InsertIsStable(cmp, s[0], StableSorted(cmp, s[1..]), c);
      }
    }
  }

  lemma {:induction false} FirstOfRank(cmp: Order, s: seq<HostKey>, c: HostKey)
    requires SameRank(cmp, s, c) != []
    ensures SameRank(cmp, s, c)[0] in s && cmp(SameRank(cmp, s, c)[0], c) == 0
  {
    if cmp(s[0], c) != 0 {
      FirstOfRank(cmp, s[1..], c);
    }
  }

  lemma RankAgrees(cmp: Order, s: seq<HostKey>, t: seq<HostKey>, c: HostKey)
    requires Stable(cmp, s, t)
    ensures SameRank(cmp, t, c) == SameRank(cmp, s, c)
  {
  }

  lemma LeastIsFirst(cmp: Order, s: seq<HostKey>, x: HostKey)
    requires TotalPreorder(cmp) && Sorted(cmp, s) && x in s
    ensures cmp(s[0], x) <= 0
  {
    assert Reflexive(cmp, x);
  }

  // The first of t ranks no higher than the first of s.
  lemma FirstIsNotBehind(cmp: Order, s: seq<HostKey>, t: seq<HostKey>)
    requires TotalPreorder(cmp) && s != [] && t != [] && Sorted(cmp, t) && Stable(cmp, s, t)
    ensures cmp(t[0], s[0]) <= 0
  {
    assert Reflexive(cmp, s[0]);
    RankAgrees(cmp, s, t, s[0]);
    FirstOfRank(cmp, t, s[0]);
    var x := SameRank(cmp, t, s[0])[0];
    LeastIsFirst(cmp, t, x);
    assert Transitive(cmp, t[0], x, s[0]);
  }

  lemma SameFirst(cmp: Order, s: seq<HostKey>, t: seq<HostKey>)
    requires TotalPreorder(cmp) && s != [] && t != [] && Sorted(cmp, s) && Sorted(cmp, t) && Stable(cmp, s, t)
    ensures s[0] == t[0]
  {
    FirstIsNotBehind(cmp, s, t);
    FirstIsNotBehind(cmp, t, s);
    assert Antisymmetric(cmp, s[0], t[0]) && Reflexive(cmp, s[0]);
    RankAgrees(cmp, s, t, s[0]);
    assert SameRank(cmp, t, s[0])[0] == t[0];
    assert SameRank(cmp, s, s[0])[0] == s[0];
  }

  // A sorted sequence is determined by its ranks: any stable sort returns the same.
  lemma {:induction false} StableSortIsUnique(cmp: Order, s: seq<HostKey>, t: seq<HostKey>)
    requires TotalPreorder(cmp) && Sorted(cmp, s) && Sorted(cmp, t) && Stable(cmp, s, t)
    ensures s == t
    decreases |s|
  {
    if s == [] || t == [] {
      if s != [] {
        assert Reflexive(cmp, s[0]);
        RankAgrees(cmp, s, t, s[0]);
      } else if t != [] {
        assert Reflexive(cmp, t[0]);
        RankAgrees(cmp, s, t, t[0]);
      }
    } else {
      SameFirst(cmp, s, t);
      forall c ensures SameRank(cmp, t[1..], c) == SameRank(cmp, s[1..], c) {
        RankAgrees(cmp, s, t, c);
        if cmp(s[0], c) == 0 {
          assert SameRank(cmp, s[1..], c) == SameRank(cmp, s, c)[1..];
          assert SameRank(cmp, t[1..], c) == SameRank(cmp, t, c)[1..];
        }
      }
      StableSortIsUnique(cmp, s[1..], t[1..]);
      assert s == [s[0]] + s[1..] && t == [t[0]] + t[1..];
    }
  }

  // --- the picks ---

  function FilterUsable(s: seq<HostKey>, usable: nat -> bool): (r: seq<HostKey>)
    ensures |r| <= |s|
  {
    if s == [] then []
    else
      var n := |s| - 1;
      FilterUsable(s[..n], usable) + (if usable(n) then [s[n]] else [])
  }

  predicate Least(cmp: Order, h: HostKey, s: seq<HostKey>) {
    forall k :: 0 <= k < |s| ==> cmp(h, s[k]) <= 0
  }

  method LeastOf(cmp: Order, s: seq<HostKey>) returns (best: nat)
    requires TotalPreorder(cmp) && s != []
    ensures best < |s| && Least(cmp, s[best], s)
  {
    best := 0;
    assert Reflexive(cmp, s[0]);
    for i := 1 to |s|
      invariant best < |s|
      invariant forall k :: 0 <= k < i ==> cmp(s[best], s[k]) <= 0
    {
      assert Reflexive(cmp, s[i]) && Antisymmetric(cmp, s[i], s[best]);
      if cmp(s[i], s[best]) < 0 {
        forall k | 0 <= k < i ensures cmp(s[i], s[k]) <= 0 {
          assert Transitive(cmp, s[i], s[best], s[k]);
        }
        best := i;
      }
    }
  }

  // The usable candidates are moved to the front, in order.
  method KeepUsable(candidates: array<HostKey>, usable: nat -> bool) returns (kept: nat)
    modifies candidates
    ensures kept <= candidates.Length && candidates[..kept] == FilterUsable(old(candidates[..]), usable)
  {
    kept := 0;
    ghost var was := candidates[..];
    for i := 0 to candidates.Length
      invariant kept <= i && candidates[..kept] == FilterUsable(was[..i], usable)
      invariant forall k :: i <= k < candidates.Length ==> candidates[k] == was[k]
    {
      assert was[..i + 1][..i] == was[..i];
      if usable(i) {
        candidates[kept] := candidates[i];
        assert candidates[..kept + 1] == candidates[..kept] + [was[i]];
        kept := kept + 1;
      }
    }
    assert was[..candidates.Length] == was;
  }

  // sort.SliceStable on the first n candidates.
  method SortStable(cmp: Order, candidates: array<HostKey>, n: nat)
    requires TotalPreorder(cmp) && n <= candidates.Length
    modifies candidates
    ensures Sorted(cmp, candidates[..n]) && Stable(cmp, old(candidates[..n]), candidates[..n])
    ensures multiset(candidates[..n]) == multiset(old(candidates[..n]))
  {
    var sorted := StableSorted(cmp, candidates[..n]);
    StableSortedIsSorted(cmp, candidates[..n]);
    assert |multiset(sorted)| == |multiset(candidates[..n])|;
    forall i | 0 <= i < n {
      candidates[i] := sorted[i];
    }
    assert candidates[..n] == sorted;
  }

  class Provider {
    var metrics: Metrics

    // The best of candidates[..n] is reserved and swap-removed; what remains is candidates[..n - 1].
    method PickWrite(candidates: array<HostKey>, n: nat) returns (picked: Option<HostKey>, remaining: nat)
      requires n <= candidates.Length
      modifies this, candidates
      ensures picked.None? <==> n == 0
      ensures n == 0 ==> remaining == 0 && metrics == old(metrics) && candidates[..] == old(candidates[..])
      ensures n > 0 ==> remaining == n - 1 && metrics == ReserveWrite(old(metrics), picked.value)
      // a least element is taken, and exactly one copy of it
      ensures n > 0 ==> Least(ByScore(old(metrics)), picked.value, old(candidates[..n]))
      ensures n > 0 ==> multiset(candidates[..remaining]) + multiset{picked.value} == multiset(old(candidates[..n]))
    {
      if n == 0 {
        return None, 0;
      }
      ghost var was := candidates[..n];
      ScoreIsTotalPreorder(metrics);
      var best := LeastOf(ByScore(metrics), candidates[..n]);
      var host := candidates[best];
      metrics := ReserveWrite(metrics, host);
      SwapRemoved(was, best);
      candidates[best] := candidates[n - 1];
      assert candidates[..n - 1] == was[best := was[n - 1]][..n - 1];
      return Some(host), n - 1;
    }

    // The usable candidates end up sorted in candidates[..kept]; the first want of them are picked and
    // reserved, unless there are fewer.
    method PickReads(candidates: array<HostKey>, usable: nat -> bool, want: nat)
      returns (picked: seq<HostKey>, kept: nat)
      modifies this, candidates
      ensures kept <= candidates.Length
      ensures Sorted(ByScore(old(metrics)), candidates[..kept])
      ensures Stable(ByScore(old(metrics)), FilterUsable(old(candidates[..]), usable), candidates[..kept])
      ensures multiset(candidates[..kept]) == multiset(FilterUsable(old(candidates[..]), usable))
      ensures picked == if kept < want then [] else candidates[..want]
      ensures metrics == ReserveReads(old(metrics), picked)
    {
      kept := KeepUsable(candidates, usable);
      ScoreIsTotalPreorder(metrics);
      SortStable(ByScore(metrics), candidates, kept);
      if kept < want {
        return [], kept;
      }
      picked := candidates[..want];
      Reserve(picked);
    }

    method Reserve(picked: seq<HostKey>)
      modifies this
      ensures metrics == ReserveReads(old(metrics), picked)
    {
      for i := 0 to |picked|
        invariant metrics == ReserveReads(old(metrics), picked[..i])
      {
        assert picked[..i + 1][..i] == picked[..i];
        metrics := ReserveRead(metrics, picked[i]);
      }
      assert picked[..|picked|] == picked;
    }
  }

  lemma SwapRemoved(s: seq<HostKey>, best: nat)
    requires best < |s|
    ensures multiset(s[best := s[|s| - 1]][..|s| - 1]) + multiset{s[best]} == multiset(s)
  {
    var n := |s| - 1;
    assert s == s[..n] + [s[n]];
    var moved := s[best := s[n]];
    assert moved == moved[..n] + [moved[n]];
    assert multiset(moved) == multiset(s) - multiset{s[best]} + multiset{s[n]};
    assert multiset(moved[..n]) + multiset{moved[n]} == multiset(moved);
  }
}
