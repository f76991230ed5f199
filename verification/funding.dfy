// FundAccounts of contracts/funder.go, the batch loop of contracts/funding.go that re-slices the
// contracts, and UpdateFundedAccounts of accounts/manager.go. The pool variants run the same code.
module Funding {
  import opened Common

  type ContractID = nat

  const TWO_63 := 0x8000_0000_0000_0000
  const TWO_64 := 0x1_0000_0000_0000_0000
  const MINUTE := 60_000_000_000
  const ACCOUNT_FUND_INTERVAL := 5 * MINUTE
  const TWENTY_YEARS := 20 * 365 * 24 * 60 * MINUTE

  // How one contract answers when its turn comes. Usable is a contract that could be locked and
  // revised: its renter output, whether the replenish call succeeds, the allowance remaining after it,
  // and whether the new revision could be stored.
  datatype Attempt =
    | Locked
    | NotRevisable
    | Failed
    | Usable(output: nat, rpcOk: bool, remaining: nat, writeOk: bool)

  // A successful replenish call for accounts [from, to).
  datatype Slice = Slice(contract: nat, from: nat, to: nat)

  function Low64(x: nat): nat {
    x % TWO_64
  }

  function BatchSize(output: nat, target: nat, maxBatch: nat): nat
    requires target > 0
  {
    Max(1, Min(Low64(output / target), maxBatch))
  }

  // A contract the loop counts as drained.
  predicate Drains(a: Attempt, target: nat) {
    a.NotRevisable? || (a.Usable? && (a.output < target || (a.rpcOk && a.writeOk && a.remaining < target)))
  }

  // A contract on which a replenish call succeeds.
  predicate Replenishes(a: Attempt, target: nat) {
    a.Usable? && a.output >= target && a.rpcOk
  }

  function CountDrained(attempts: seq<Attempt>, target: nat): (r: nat)
    ensures r <= |attempts|
  {
    if attempts == [] then 0
    else CountDrained(attempts[..|attempts| - 1], target) + (if Drains(attempts[|attempts| - 1], target) then 1 else 0)
  }

  function CountReplenishing(attempts: seq<Attempt>, target: nat): (r: nat)
    ensures r <= |attempts|
  {
    if attempts == [] then 0
    else CountReplenishing(attempts[..|attempts| - 1], target) + (if Replenishes(attempts[|attempts| - 1], target) then 1 else 0)
  }

  // How many accounts the contracts can fund together.
  function Capacity(attempts: seq<Attempt>, target: nat, maxBatch: nat): nat
    requires target > 0
  {
    if attempts == [] then 0
    else
      var last := attempts[|attempts| - 1];
      Capacity(attempts[..|attempts| - 1], target, maxBatch)
      + (if Replenishes(last, target) then BatchSize(last.output, target, maxBatch) else 0)
  }

  // The loop ends with this contract: its revision is stored and every account is funded.
  predicate StopsAt(attempts: seq<Attempt>, k: nat, accounts: nat, target: nat, maxBatch: nat)
    requires target > 0 && k < |attempts|
  {
    Replenishes(attempts[k], target) && attempts[k].writeOk && Capacity(attempts[..k + 1], target, maxBatch) >= accounts
  }

  // How many contracts are tried, once the first k did not end the loop.
  function TriedFrom(attempts: seq<Attempt>, k: nat, accounts: nat, target: nat, maxBatch: nat): (r: nat)
    requires target > 0 && k <= |attempts|
    ensures k <= r <= |attempts|
    decreases |attempts| - k
  {
    if k == |attempts| then k
    else if StopsAt(attempts, k, accounts, target, maxBatch) then k + 1
    else TriedFrom(attempts, k + 1, accounts, target, maxBatch)
  }

  // The accounts funded by one call, and the contracts it counts as drained.
  function FundedBy(attempts: seq<Attempt>, accounts: nat, target: nat, maxBatch: nat): nat
    requires target > 0
  {
    Min(accounts, Capacity(attempts, target, maxBatch))
  }

  function DrainedBy(attempts: seq<Attempt>, accounts: nat, target: nat, maxBatch: nat): (r: nat)
    requires target > 0
    ensures r <= |attempts|
  {
    CountDrained(attempts[..TriedFrom(attempts, 0, accounts, target, maxBatch)], target)
  }

  lemma {:induction false} CapacityGrows(attempts: seq<Attempt>, k: nat, target: nat, maxBatch: nat)
    requires target > 0 && k <= |attempts|
    ensures Capacity(attempts[..k], target, maxBatch) <= Capacity(attempts, target, maxBatch)
    decreases |attempts|
  {
    if k < |attempts| {
      CapacityGrows(attempts[..|attempts| - 1], k, target, maxBatch);
      assert attempts[..|attempts| - 1][..k] == attempts[..k];
    } else {
      assert attempts[..k] == attempts;
    }
  }

  // --- what the calls sent add up to ---

  // The slices follow one another from account 0 to account end.
  ghost predicate Tiles(slices: seq<Slice>, end: nat)
    decreases |slices|
  {
    if slices == [] then end == 0
    else
      var last := slices[|slices| - 1];
      last.from <= last.to == end && Tiles(slices[..|slices| - 1], last.from)
  }

  ghost predicate GoodSlice(s: Slice, attempts: seq<Attempt>, accounts: nat, target: nat, maxBatch: nat) {
    && target > 0 && s.from <= s.to <= accounts && s.contract < |attempts|
    && Replenishes(attempts[s.contract], target)
    && s.to == Min(accounts, s.from + BatchSize(attempts[s.contract].output, target, maxBatch))
  }

  ghost predicate GoodSlices(slices: seq<Slice>, attempts: seq<Attempt>, accounts: nat, target: nat, maxBatch: nat) {
    && (forall i {:trigger slices[i]} :: 0 <= i < |slices| ==> GoodSlice(slices[i], attempts, accounts, target, maxBatch))
    && (forall i, j :: 0 <= i < j < |slices| ==> slices[i].contract < slices[j].contract)
  }

  // Every account below end lies in exactly one slice.
  lemma {:induction false} TilesCoverOnce(slices: seq<Slice>, end: nat, account: nat)
    requires Tiles(slices, end)
    ensures account < end <==> exists i :: 0 <= i < |slices| && slices[i].from <= account < slices[i].to
    ensures forall i, j :: 0 <= i < j < |slices| ==> slices[i].to <= slices[j].from
    ensures forall i :: 0 <= i < |slices| ==> slices[i].from <= slices[i].to <= end
    decreases |slices|
  {
    if slices != [] {
      var k := |slices| - 1;
      var shorter := slices[..k];
      TilesCoverOnce(shorter, slices[k].from, account);
      assert forall i :: 0 <= i < k ==> shorter[i] == slices[i];
      if account < slices[k].from {
        var i :| 0 <= i < |shorter| && shorter[i].from <= account < shorter[i].to;
        assert slices[i].from <= account < slices[i].to;
      } else if account < end {
        assert slices[k].from <= account < slices[k].to;
      }
    }
  }

  lemma QuotientTimes(total: nat, unit: nat)
    requires unit > 0
    ensures (total / unit) * unit <= total
    ensures total >= unit ==> total / unit >= 1
  {
    assert total == (total / unit) * unit + total % unit;
  }

  lemma TimesGrows(a: nat, b: nat, unit: nat)
    requires a <= b
    ensures a * unit <= b * unit
  {
  }

  // The renter output pays the target for every account of the slice, also where the quotient was
  // narrowed to 64 bits.
  lemma SliceIsPaid(s: Slice, attempts: seq<Attempt>, accounts: nat, target: nat, maxBatch: nat)
    requires GoodSlice(s, attempts, accounts, target, maxBatch)
    ensures (s.to - s.from) * target <= attempts[s.contract].output
  {
    var output := attempts[s.contract].output;
    QuotientTimes(output, target);
    assert Low64(output / target) <= output / target;
    TimesGrows(s.to - s.from, output / target, target);
  }

  lemma SliceAppends(slices: seq<Slice>, s: Slice, attempts: seq<Attempt>, accounts: nat, target: nat, maxBatch: nat)
    requires Tiles(slices, s.from) && GoodSlices(slices, attempts, accounts, target, maxBatch)
    requires GoodSlice(s, attempts, accounts, target, maxBatch)
    requires |slices| > 0 ==> slices[|slices| - 1].contract < s.contract
    ensures Tiles(slices + [s], s.to) && GoodSlices(slices + [s], attempts, accounts, target, maxBatch)
  {
    var longer := slices + [s];
    assert longer[..|slices|] == slices;
    assert forall i :: 0 <= i < |slices| ==> longer[i] == slices[i];
  }

  // --- the funder ---

  // After trying the first contracts.
  ghost predicate Progress(attempts: seq<Attempt>, tried: nat, accounts: nat, target: nat, maxBatch: nat,
                           funded: nat, drained: nat, slices: seq<Slice>) {
    && target > 0 && tried <= |attempts| && funded == Min(accounts, Capacity(attempts[..tried], target, maxBatch))
    && Tiles(slices, funded) && GoodSlices(slices, attempts, accounts, target, maxBatch)
    && (|slices| > 0 ==> slices[|slices| - 1].contract < tried)
    && |slices| == CountReplenishing(attempts[..tried], target)
    && drained == CountDrained(attempts[..tried], target)
  }

  lemma ProgressStep(attempts: seq<Attempt>, tried: nat, accounts: nat, target: nat, maxBatch: nat,
                     funded: nat, drained: nat, slices: seq<Slice>, end: nat)
    requires target > 0 && tried < |attempts| && Progress(attempts, tried, accounts, target, maxBatch, funded, drained, slices)
    requires Replenishes(attempts[tried], target) ==>
      end == Min(accounts, funded + BatchSize(attempts[tried].output, target, maxBatch))
    ensures
      var a := attempts[tried];
      Progress(attempts, tried + 1, accounts, target, maxBatch,
               if Replenishes(a, target) then end else funded,
               if Drains(a, target) then drained + 1 else drained,
               if Replenishes(a, target) then slices + [Slice(tried, funded, end)] else slices)
  {
    assert attempts[..tried + 1][..tried] == attempts[..tried];
    if Replenishes(attempts[tried], target) {
      SliceAppends(slices, Slice(tried, funded, end), attempts, accounts, target, maxBatch);
    }
  }

  // The replenish call on one contract.
  method TryContract(a: Attempt, funded: nat, accounts: nat, target: nat, maxBatch: nat)
    returns (end: nat, replenished: bool, drains: bool, done: bool)
    requires target > 0 && funded <= accounts
    ensures replenished <==> Replenishes(a, target)
    ensures drains <==> Drains(a, target)
    ensures end == if replenished then Min(accounts, funded + BatchSize(a.output, target, maxBatch)) else funded
    ensures done <==> replenished && a.writeOk && end == accounts
  {
    end, replenished, drains, done := funded, false, false, false;
    match a {
      case Locked =>
      case NotRevisable => drains := true;
      case Failed =>
      case Usable(output, rpcOk, remaining, writeOk) =>
        if output < target {
          drains := true;
          return;
        }
        var batchSize := BatchSize(output, target, maxBatch);
        var maxEnd := Min(accounts, funded + batchSize);
        if !rpcOk {
          return;
        }
        end, replenished := maxEnd, true;
        if !writeOk {
          return;
        }
        drains := remaining < target;
        done := end == accounts;
    }
  }

  lemma NoProgressYet(attempts: seq<Attempt>, accounts: nat, target: nat, maxBatch: nat)
    requires target > 0
    ensures Progress(attempts, 0, accounts, target, maxBatch, 0, 0, [])
  {
  }

  // One pass of the loop over the contracts.
  method FundOne(attempts: seq<Attempt>, tried: nat, accounts: nat, target: nat, maxBatch: nat,
                 funded: nat, drained: nat, slices: seq<Slice>)
    returns (nowFunded: nat, nowDrained: nat, nowSlices: seq<Slice>, done: bool)
    requires target > 0 && tried < |attempts| && Progress(attempts, tried, accounts, target, maxBatch, funded, drained, slices)
    ensures Progress(attempts, tried + 1, accounts, target, maxBatch, nowFunded, nowDrained, nowSlices)
    ensures done <==> StopsAt(attempts, tried, accounts, target, maxBatch)
  {
    nowDrained, nowSlices := drained, slices;
    var end, replenished, drains, over := TryContract(attempts[tried], funded, accounts, target, maxBatch);
    ProgressStep(attempts, tried, accounts, target, maxBatch, funded, drained, slices, end);
    if replenished {
      nowSlices := slices + [Slice(tried, funded, end)];
    }
    if drains {
      nowDrained := drained + 1;
    }
    nowFunded, done := end, over;
  }

  method FundFrom(attempts: seq<Attempt>, accounts: nat, target: nat, maxBatch: nat)
    returns (funded: nat, drained: nat, slices: seq<Slice>, tried: nat)
    requires target > 0
    ensures Progress(attempts, tried, accounts, target, maxBatch, funded, drained, slices)
    ensures tried == TriedFrom(attempts, 0, accounts, target, maxBatch) && (funded == accounts || tried == |attempts|)
  {
    funded, drained, slices, tried := 0, 0, [], 0;
    NoProgressYet(attempts, accounts, target, maxBatch);
    var done := false;
    while tried < |attempts| && !done
      invariant tried <= |attempts| && (done ==> funded == accounts)
      invariant TriedFrom(attempts, 0, accounts, target, maxBatch) ==
        if done then tried else TriedFrom(attempts, tried, accounts, target, maxBatch)
      invariant Progress(attempts, tried, accounts, target, maxBatch, funded, drained, slices)
    {
      funded, drained, slices, done := FundOne(attempts, tried, accounts, target, maxBatch, funded, drained, slices);
      tried := tried + 1;
    }
  }

  method FundAccounts(attempts: seq<Attempt>, accounts: nat, target: nat, maxBatch: nat)
    returns (funded: nat, drained: nat, slices: seq<Slice>, tried: nat, failed: bool)
    requires target > 0
    ensures failed <==> accounts > maxBatch || attempts == []
    ensures failed || accounts == 0 ==> funded == 0 && drained == 0 && slices == [] && tried == 0
    // the calls cover exactly the first accounts
    ensures funded <= accounts && Tiles(slices, funded)
    ensures GoodSlices(slices, attempts, accounts, target, maxBatch)
    // every contract is tried until all accounts are funded, each usable one replenishes
    ensures tried <= |attempts| && (!failed && funded < accounts ==> tried == |attempts|)
    ensures !failed && accounts > 0 ==> tried == TriedFrom(attempts, 0, accounts, target, maxBatch)
    ensures !failed ==> funded == FundedBy(attempts, accounts, target, maxBatch)
    ensures |slices| == CountReplenishing(attempts[..tried], target)
    ensures drained == CountDrained(attempts[..tried], target) <= |attempts|
    ensures !failed && accounts > 0 ==> drained == DrainedBy(attempts, accounts, target, maxBatch)
  {
    funded, drained, slices, tried, failed := 0, 0, [], 0, false;
    if accounts > maxBatch || |attempts| == 0 {
      failed := true;
      return;
    }
    if accounts > 0 {
      funded, drained, slices, tried := FundFrom(attempts, accounts, target, maxBatch);
      CapacityGrows(attempts, tried, target, maxBatch);
      assert attempts[..|attempts|] == attempts;
    }
  }

  // --- the callers' re-slice ---

  // Dropping the first `drained` contracts drops exactly drained ones if and only if, among the tried
  // contracts, no drained one comes after one that is not.
  lemma DropIsExactIff(attempts: seq<Attempt>, target: nat)
    ensures (forall i :: 0 <= i < CountDrained(attempts, target) ==> Drains(attempts[i], target)) <==>
      (forall i, j :: 0 <= i < j < |attempts| && Drains(attempts[j], target) ==> Drains(attempts[i], target))
  {
    var c := CountDrained(attempts, target);
    if forall i :: 0 <= i < c ==> Drains(attempts[i], target) {
      CountOfPrefix(attempts, target, c);
      forall i, j | 0 <= i < j < |attempts| && Drains(attempts[j], target) ensures Drains(attempts[i], target) {
        if j >= c {
          CountGrows(attempts, target, c, j);
        }
      }
    }
    if forall i, j :: 0 <= i < j < |attempts| && Drains(attempts[j], target) ==> Drains(attempts[i], target) {
      SortedCount(attempts, target);
    }
  }

  lemma {:induction false} CountOfPrefix(attempts: seq<Attempt>, target: nat, n: nat)
    requires n <= |attempts| && forall i :: 0 <= i < n ==> Drains(attempts[i], target)
    ensures CountDrained(attempts[..n], target) == n
  {
    if n > 0 {
      CountOfPrefix(attempts, target, n - 1);
      assert attempts[..n][..n - 1] == attempts[..n - 1];
    }
  }

  // A drained contract at j makes the whole count larger than that of the first c <= j.
  lemma {:induction false} CountGrows(attempts: seq<Attempt>, target: nat, c: nat, j: nat)
    requires c <= j < |attempts| && Drains(attempts[j], target)
    ensures CountDrained(attempts, target) > CountDrained(attempts[..c], target)
    decreases |attempts|
  {
    var shorter := attempts[..|attempts| - 1];
    assert shorter[..c] == attempts[..c];
    if j < |attempts| - 1 {
      CountGrows(shorter, target, c, j);
    } else {
      CountMonotone(shorter, target, c);
    }
  }

  lemma {:induction false} CountMonotone(attempts: seq<Attempt>, target: nat, c: nat)
    requires c <= |attempts|
    ensures CountDrained(attempts, target) >= CountDrained(attempts[..c], target)
    decreases |attempts|
  {
    if c < |attempts| {
      var shorter := attempts[..|attempts| - 1];
      CountMonotone(shorter, target, c);
      assert shorter[..c] == attempts[..c];
    } else {
      assert attempts[..c] == attempts;
    }
  }

  lemma {:induction false} SortedCount(attempts: seq<Attempt>, target: nat)
    requires forall i, j :: 0 <= i < j < |attempts| && Drains(attempts[j], target) ==> Drains(attempts[i], target)
    ensures forall i :: 0 <= i < CountDrained(attempts, target) ==> Drains(attempts[i], target)
  {
    if attempts != [] {
      var n := |attempts| - 1;
      SortedCount(attempts[..n], target);
      assert forall i :: 0 <= i < n ==> attempts[..n][i] == attempts[i];
    }
  }

  // A locked contract in front of a drained one: the drop removes the locked one.
  lemma DropCanMiss(target: nat)
    requires target > 0
    ensures var attempts := [Locked, NotRevisable];
      CountDrained(attempts, target) == 1 && !Drains(attempts[0], target) && Drains(attempts[1], target)
  {
    assert [Locked, NotRevisable][..1] == [Locked];
    assert [Locked][..0] == [];
  }

  // --- the backoff ---

  function Pow2(n: nat): (r: nat)
    ensures r > 0
  {
    if n == 0 then 1 else 2 * Pow2(n - 1)
  }

  function WrapInt64(x: int): (r: int)
    ensures -TWO_63 <= r < TWO_63
    ensures -TWO_63 <= x < TWO_63 ==> r == x
  {
    (x + TWO_63) % TWO_64 - TWO_63
  }

  // The float power as a Duration; beyond 2^62 the conversion yields a platform's overflow value.
  function PowerAsDuration(failures: nat, overflow: int): int {
    if failures <= 62 then Pow2(failures) else overflow
  }

  // int64 nanoseconds; the multiplication wraps.
  function Backoff(failures: nat, maxBackoff: int, overflow: int): int {
    Min(WrapInt64(PowerAsDuration(failures, overflow) * MINUTE), maxBackoff)
  }

  lemma {:induction false} Pow2Splits(a: nat, b: nat)
    ensures Pow2(a + b) == Pow2(a) * Pow2(b)
  {
    if a > 0 {
      Pow2Splits(a - 1, b);
    }
  }

  lemma {:induction false} Pow2Monotone(a: nat, b: nat)
    requires a <= b
    ensures Pow2(a) <= Pow2(b)
    decreases b - a
  {
    if a < b {
      Pow2Monotone(a, b - 1);
    }
  }

  // The product of a minute and 2^n as int64 nanoseconds, where it no longer fits.
  function WrappedMinutes(n: nat): int
    requires 28 <= n <= 62
  {
    match n
    case 28 => -2340616713709551616
    case 29 => -4681233427419103232
    case 30 => 9084277218871345152
    case 31 => -278189635966861312
    case 32 => -556379271933722624
    case 33 => -1112758543867445248
    case 34 => -2225517087734890496
    case 35 => -4451034175469780992
    case 36 => -8902068350939561984
    case 37 => 642607371830427648
    case 38 => 1285214743660855296
    case 39 => 2570429487321710592
    case 40 => 5140858974643421184
    case 41 => -8165026124422709248
    case 42 => 2116691824864133120
    case 43 => 4233383649728266240
    case 44 => 8466767299456532480
    case 45 => -1513209474796486656
    case 46 => -3026418949592973312
    case 47 => -6052837899185946624
    case 48 => 6341068275337658368
    case 49 => -5764607523034234880
    case 50 => 6917529027641081856
    case 51 => -4611686018427387904
    case 52 => -9223372036854775808
    case _ => 0
  }

  lemma WrapOfDouble(x: int)
    ensures WrapInt64(2 * x) == WrapInt64(2 * WrapInt64(x))
  {
    var k := (x + TWO_63) / TWO_64;
    assert WrapInt64(x) == x - k * TWO_64;
    WrapIgnoresMultiples(2 * WrapInt64(x), 2 * k);
  }

  lemma WrapIgnoresMultiples(x: int, k: int)
    ensures WrapInt64(x + k * TWO_64) == WrapInt64(x)
  {
  }

  lemma {:induction false} WrappedIsTable(n: nat)
    requires 28 <= n <= 62
    ensures WrapInt64(Pow2(n) * MINUTE) == WrappedMinutes(n)
  {
    if n == 28 {
      Pow2Values();
    } else {
      WrappedIsTable(n - 1);
      WrapOfDouble(Pow2(n - 1) * MINUTE);
      assert Pow2(n) * MINUTE == 2 * (Pow2(n - 1) * MINUTE);
      TableDoubles(n);
    }
  }

  lemma TableDoubles(n: nat)
    requires 29 <= n <= 62
    ensures WrapInt64(2 * WrappedMinutes(n - 1)) == WrappedMinutes(n)
  {
  }

  // The delay is min(2^failures minutes, maximum) for up to 27 failures; from 28 to 62 only for maxima up
  // to the tabled value.
  lemma BackoffAsIntendedIff(failures: nat, maxBackoff: int, overflow: int)
    requires failures <= 62 && maxBackoff < TWO_63
    ensures Backoff(failures, maxBackoff, overflow) == Min(Pow2(failures) * MINUTE, maxBackoff) <==>
      failures <= 27 || maxBackoff <= WrappedMinutes(failures)
  {
    Pow2Values();
    if failures <= 27 {
      Pow2Monotone(failures, 27);
    } else {
      Pow2Monotone(28, failures);
      WrappedIsTable(failures);
    }
  }

  // The failures for which the wrapped product is negative or zero: there every positive maximum is missed.
  predicate Vanishes(failures: nat) {
    failures in {28, 29, 31, 32, 33, 34, 35, 36, 41, 45, 46, 47, 49} || 51 <= failures
  }

  // With the default maximum, and any positive one up to twenty years, the delay is wrong for exactly these
  // numbers of failures, and then there is none; also beyond 62, where the conversion overflows, if that
  // yields the least or the greatest int64.
  lemma BackoffVanishesIff(failures: nat, maxBackoff: int, overflow: int)
    requires 0 < maxBackoff <= TWENTY_YEARS && (failures > 62 ==> overflow == -TWO_63 || overflow == TWO_63 - 1)
    ensures Backoff(failures, maxBackoff, overflow) != Min(Pow2(failures) * MINUTE, maxBackoff) <==> Vanishes(failures)
    ensures Vanishes(failures) ==> Backoff(failures, maxBackoff, overflow) <= 0
  {
    if failures > 62 {
      OverflowedBackoff(failures, maxBackoff, overflow);
    } else {
      BackoffAsIntendedIff(failures, maxBackoff, overflow);
      if failures >= 28 {
        WrappedIsTable(failures);
        TableSigns(failures);
      }
    }
  }

  lemma OverflowedBackoff(failures: nat, maxBackoff: int, overflow: int)
    requires failures > 62 && 0 < maxBackoff < TWO_63 && (overflow == -TWO_63 || overflow == TWO_63 - 1)
    ensures Backoff(failures, maxBackoff, overflow) <= 0 && Min(Pow2(failures) * MINUTE, maxBackoff) == maxBackoff
  {
    Pow2Values();
    Pow2Monotone(28, failures);
    assert WrapInt64(-TWO_63 * MINUTE) == 0 && WrapInt64((TWO_63 - 1) * MINUTE) == -MINUTE;
  }

  lemma TableSigns(n: nat)
    requires 28 <= n <= 62
    ensures Vanishes(n) <==> WrappedMinutes(n) <= 0
    ensures !Vanishes(n) ==> WrappedMinutes(n) >= TWENTY_YEARS
  {
  }

  lemma Pow2Values()
    ensures Pow2(27) == 134217728 && Pow2(28) == 268435456
  {
    assert Pow2(3) == 8;
    Pow2Splits(3, 3);
    Pow2Splits(3, 6);
    Pow2Splits(9, 9);
    Pow2Splits(9, 18);
  }

  // --- the accounts ---

  datatype HostAccount = HostAccount(key: nat, failures: nat, nextFund: int)

  // clock(i) is the time read for the i-th entry.
  function Updated(a: HostAccount, i: nat, n: nat, maxBackoff: int, overflow: int, clock: nat -> int): HostAccount {
    if i < n then a.(failures := 0, nextFund := clock(i) + ACCOUNT_FUND_INTERVAL)
    else a.(failures := a.failures + 1, nextFund := clock(i) + Backoff(a.failures + 1, maxBackoff, overflow))
  }

  ghost predicate AllUpdated(before: seq<HostAccount>, after: seq<HostAccount>, n: nat, maxBackoff: int, overflow: int, clock: nat -> int) {
    && |after| == |before|
    && forall i {:trigger after[i]} :: 0 <= i < |before| ==> after[i] == Updated(before[i], i, n, maxBackoff, overflow, clock)
  }

  method UpdateFundedAccounts(accounts: array<HostAccount>, n: nat, maxBackoff: int, overflow: int, clock: nat -> int)
    requires n <= accounts.Length
    modifies accounts
    ensures AllUpdated(old(accounts[..]), accounts[..], n, maxBackoff, overflow, clock)
  {
    for i := 0 to n
      invariant forall k :: 0 <= k < i ==> accounts[k] == Updated(old(accounts[k]), k, n, maxBackoff, overflow, clock)
      invariant forall k :: i <= k < accounts.Length ==> accounts[k] == old(accounts[k])
    {
      accounts[i] := accounts[i].(failures := 0);
      accounts[i] := accounts[i].(nextFund := clock(i) + ACCOUNT_FUND_INTERVAL);
    }
    for i := n to accounts.Length
      invariant forall k :: 0 <= k < i ==> accounts[k] == Updated(old(accounts[k]), k, n, maxBackoff, overflow, clock)
      invariant forall k :: i <= k < accounts.Length ==> accounts[k] == old(accounts[k])
    {
      accounts[i] := accounts[i].(failures := accounts[i].failures + 1);
      accounts[i] := accounts[i].(nextFund := clock(i) + Backoff(accounts[i].failures, maxBackoff, overflow));
    }
  }

  // Exactly the first n accounts have a clean record afterwards.
  lemma ExactlyFundedAreReset(before: seq<HostAccount>, after: seq<HostAccount>, n: nat, maxBackoff: int, overflow: int, clock: nat -> int, i: nat)
    requires AllUpdated(before, after, n, maxBackoff, overflow, clock) && i < |after|
    ensures after[i].key == before[i].key && (after[i].failures == 0 <==> i < n)
  {
    assert after[i] == Updated(before[i], i, n, maxBackoff, overflow, clock);
  }

  // How many accounts a batch has, and what each of them is to be topped up to.
  datatype Batch = Batch(size: nat, target: nat)

  // The batches of one host. world answers for each batch how a contract fares, stored whether its accounts
  // can be written.
  datatype Host = Host(ids: seq<ContractID>, batches: seq<Batch>, maxBatch: nat,
                       world: (nat, ContractID) -> Attempt, stored: nat -> bool) {

    // A batch that is passed over.
    predicate Skipped(k: nat)
      requires k < |batches|
    {
      batches[k].size == 0 || batches[k].target == 0
    }

    // A batch too large for one call.
    predicate Refused(k: nat)
      requires k < |batches|
    {
      !Skipped(k) && batches[k].size > maxBatch
    }

    // How many contracts the first k batches drop: each as many as it drained.
    function Dropped(k: nat): (r: nat)
      requires k <= |batches|
      ensures r <= |ids|
    {
      if k == 0 then 0
      else if Skipped(k - 1) then Dropped(k - 1)
      else
        var b := batches[k - 1];
        Dropped(k - 1) + DrainedBy(Attempts(world, k - 1, ids[Dropped(k - 1)..]), b.size, b.target, maxBatch)
    }

    // How many accounts of the k-th batch the contracts then left fund, if it is not passed over.
    function Funds(k: nat): Option<nat>
      requires k < |batches|
    {
      if Skipped(k) then None
      else
        var b := batches[k];
        Some(FundedBy(Attempts(world, k, ids[Dropped(k)..]), b.size, b.target, maxBatch))
    }

    // The loop goes on after the k-th batch.
    predicate Passed(k: nat)
      requires k < |batches|
    {
      Skipped(k) || (!Refused(k) && stored(k) && Dropped(k + 1) < |ids|)
    }

    // The first batch from k on after which the loop does not go on.
    function End(k: nat): (r: nat)
      requires k <= |batches|
      ensures k <= r <= |batches| && forall j :: k <= j < r ==> Passed(j)
      ensures r < |batches| ==> !Passed(r)
      decreases |batches| - k
    {
      if k == |batches| || !Passed(k) then k else End(k + 1)
    }

    // The loop ends with an error.
    predicate Fails() {
      End(0) < |batches| && (Refused(End(0)) || !stored(End(0)))
    }

    // The batches up to the end are handled, but for one that is refused.
    function Handled(): (r: nat)
      ensures r <= |batches|
    {
      if End(0) < |batches| && !Refused(End(0)) then End(0) + 1 else End(0)
    }
  }

  // How the contracts left fare when a batch is funded.
  function Attempts(world: (nat, ContractID) -> Attempt, k: nat, left: seq<ContractID>): (r: seq<Attempt>)
    ensures |r| == |left|
  {
    if left == [] then [] else [world(k, left[0])] + Attempts(world, k, left[1..])
  }

  // The accounts of a batch after the loop: with n of them funded, or as they were.
  ghost predicate Became(before: seq<HostAccount>, after: seq<HostAccount>, n: Option<nat>, maxBackoff: int, overflow: int, clock: nat -> int) {
    if n.Some? then AllUpdated(before, after, n.value, maxBackoff, overflow, clock) else after == before
  }

  // One batch, over the contracts left: its first n accounts are funded, all are updated in place, and as
  // many contracts as were drained are dropped.
  method FundBatch(host: Host, k: nat, accounts: array<HostAccount>, rest: seq<ContractID>,
                   maxBackoff: int, overflow: int, clock: nat -> int)
    returns (n: Option<nat>, left: seq<ContractID>, refused: bool)
    requires k < |host.batches| && accounts.Length == host.batches[k].size
    requires rest == host.ids[host.Dropped(k)..] && rest != []
    modifies accounts
    ensures refused <==> host.Refused(k)
    ensures n == if refused then None else host.Funds(k)
    ensures !refused ==> left == host.ids[host.Dropped(k + 1)..]
    ensures Became(old(accounts[..]), accounts[..], n, maxBackoff, overflow, clock)
  {
    var b := host.batches[k];
    n, left, refused := None, rest, false;
    if accounts.Length == 0 || b.target == 0 {
      return;
    }
    var funded, drained, slices, tried;
    funded, drained, slices, tried, refused := FundAccounts(Attempts(host.world, k, rest), accounts.Length, b.target, host.maxBatch);
    if !refused {
      UpdateFundedAccounts(accounts, funded, maxBackoff, overflow, clock);
      n, left := Some(funded), rest[drained..];
    }
  }

  ghost predicate FundsAt(host: Host, funded: seq<Option<nat>>, i: nat) {
    i < |funded| && i < |host.batches| && funded[i] == host.Funds(i)
  }

  // Each batch handled is funded as far as the contracts then left reach.
  ghost predicate AllFunded(host: Host, funded: seq<Option<nat>>) {
    forall i {:trigger FundsAt(host, funded, i)} :: 0 <= i < |funded| ==> FundsAt(host, funded, i)
  }

  lemma OneMoreFunded(host: Host, funded: seq<Option<nat>>, n: Option<nat>)
    requires AllFunded(host, funded) && |funded| < |host.batches| && n == host.Funds(|funded|)
    ensures AllFunded(host, funded + [n])
  {
    forall i | 0 <= i <= |funded| ensures FundsAt(host, funded + [n], i) {
      assert i < |funded| ==> FundsAt(host, funded, i);
    }
  }

  function At(funded: seq<Option<nat>>, i: nat): Option<nat> {
    if i < |funded| then funded[i] else None
  }

  // The loop over one host's batches, whose accounts are given one array a batch. clock gives the times read
  // for the entries of each batch.
  method FundBatches(host: Host, accounts: seq<array<HostAccount>>, maxBackoff: int, overflow: int, clock: nat -> nat -> int)
    returns (rest: seq<ContractID>, funded: seq<Option<nat>>, failed: bool)
    requires host.ids != []
    requires |accounts| == |host.batches| && forall i :: 0 <= i < |accounts| ==> accounts[i].Length == host.batches[i].size
    requires forall i, j :: 0 <= i < j < |accounts| ==> accounts[i] != accounts[j]
    modifies set a | a in accounts
    ensures failed <==> host.Fails()
    ensures |funded| == host.Handled() && AllFunded(host, funded)
    // what is left is without as many contracts as the stored batches drained
    ensures rest == host.ids[host.Dropped(if failed then host.End(0) else |funded|)..]
    ensures !failed && |funded| < |host.batches| ==> rest == []
    // every batch that was funded has exactly its funded accounts reset, the others are untouched
    ensures forall i {:trigger accounts[i]} :: 0 <= i < |accounts| ==>
      Became(old(accounts[i][..]), accounts[i][..], At(funded, i), maxBackoff, overflow, clock(i))
  {
    rest, funded, failed := host.ids, [], false;
    while |funded| < |host.batches|
      invariant |funded| <= |host.batches| && host.End(0) == host.End(|funded|)
      invariant rest == host.ids[host.Dropped(|funded|)..] && rest != []
      invariant AllFunded(host, funded)
      invariant forall i {:trigger accounts[i]} :: 0 <= i < |accounts| ==>
        Became(old(accounts[i][..]), accounts[i][..], At(funded, i), maxBackoff, overflow, clock(i))
    {
      var k := |funded|;
      var n, left, refused := FundBatch(host, k, accounts[k], rest, maxBackoff, overflow, clock(k));
      if refused {
        failed := true;
        return;
      }
      OneMoreFunded(host, funded, n);
      funded := funded + [n];
      if n.None? {
        continue;
      }
      if !host.stored(k) {
        failed := true;
        return;
      }
      rest := left;
      if |rest| == 0 {
        return;
      }
    }
  }
}
