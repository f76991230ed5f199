// performSectorPinningOnHost and pinSectors of contracts/pinning.go, with the database updates they make.
// Sizes are uint64 byte counts and currencies unbounded naturals; where the code narrows a quotient to
// uint64 or adds two uint64 values, the wrap-around is written out.
module Pinning {
  import opened Common

  type Root = nat
  type HostKey = nat
  type ContractID = nat

  const SECTOR_SIZE := 4194304
  const TWO_64 := 0x1_0000_0000_0000_0000

  // What appending one sector costs for the given number of blocks.
  datatype Cost = Cost(renter: nat, collateral: nat)

  datatype Prices = Prices(tipHeight: nat, appendCost: nat -> Cost)

  datatype Revision = Revision(filesize: nat, capacity: nat, expirationHeight: nat, allowance: nat, collateral: nat) {
    predicate Valid() {
      filesize <= capacity < TWO_64
    }

    // Sectors that fit without growing the capacity.
    function FreeSectors(): nat
      requires Valid()
    {
      (capacity - filesize) / SECTOR_SIZE
    }
  }

  datatype Refusal = TooLarge | Expired | OutOfFunds | OutOfCollateral | MaxSize | UnknownReason

  function Low64(x: nat): nat {
    x % TWO_64
  }

  function AtLeastOne(x: nat): (r: nat)
    ensures r > 0 && r >= x
  {
    if x == 0 then 1 else x
  }

  function UnitCost(c: Revision, p: Prices): Cost
    requires p.tipHeight < c.expirationHeight
  {
    p.appendCost(c.expirationHeight - p.tipHeight)
  }

  function ByAllowance(c: Revision, p: Prices): nat
    requires p.tipHeight < c.expirationHeight
  {
    Low64(c.allowance / AtLeastOne(UnitCost(c, p).renter))
  }

  function ByCollateral(c: Revision, p: Prices): nat
    requires p.tipHeight < c.expirationHeight
  {
    Low64(c.collateral / AtLeastOne(UnitCost(c, p).collateral))
  }

  // How many sectors pinSectors attempts at most on a contract, or why it attempts none.
  function AppendLimit(c: Revision, maxSize: nat, p: Prices): (r: Result<nat, Refusal>)
    requires c.Valid() && maxSize < TWO_64
    ensures r.Ok? ==> r.value > 0
  {
    if c.filesize >= maxSize then Err(TooLarge)
    else if c.expirationHeight <= p.tipHeight then Err(Expired)
    else
      var maxRemaining := (maxSize - c.filesize) / SECTOR_SIZE;
      var a, k := ByAllowance(c, p), ByCollateral(c, p);
      var limit := Min(Low64(c.FreeSectors() + Min(a, k)), maxRemaining);
      if limit > 0 then Ok(limit)
      else if a == 0 then Err(OutOfFunds)
      else if k == 0 then Err(OutOfCollateral)
      else if maxRemaining == 0 then Err(MaxSize)
      else Err(UnknownReason)
  }

  // The sectors that n appended ones add beyond the free capacity; only these are paid for.
  function Growth(c: Revision, n: nat): nat
    requires c.Valid()
  {
    if n <= c.FreeSectors() then 0 else n - c.FreeSectors()
  }

  predicate Affordable(c: Revision, n: nat, cost: Cost)
    requires c.Valid()
  {
    Growth(c, n) * cost.renter <= c.allowance && Growth(c, n) * cost.collateral <= c.collateral
  }

  // n sectors keep the contract within maxSize and its funds.
  predicate Fits(c: Revision, maxSize: nat, n: nat, cost: Cost)
    requires c.Valid()
  {
    c.filesize + n * SECTOR_SIZE <= maxSize && Affordable(c, n, cost)
  }

  // --- the limit is safe, and exact when nothing wraps ---

  lemma TimesGrows(a: nat, b: nat, unit: nat)
    requires a <= b
    ensures a * unit <= b * unit
  {
  }

  lemma QuotientTimes(total: nat, unit: nat)
    requires unit > 0
    ensures (total / unit) * unit <= total < (total / unit + 1) * unit
  {
  }

  lemma WithinQuotient(n: nat, total: nat, unit: nat)
    requires n <= total / AtLeastOne(unit)
    ensures n * unit <= total
  {
    if unit > 0 {
      QuotientTimes(total, unit);
      TimesGrows(n, total / unit, unit);
    }
  }

  lemma GrowthBound(free: nat, a: nat, k: nat, n: nat)
    requires n <= Low64(free + Min(Low64(a), Low64(k)))
    ensures n <= free || (n - free <= a && n - free <= k)
  {
  }

  lemma LimitParts(c: Revision, maxSize: nat, p: Prices)
    requires c.Valid() && maxSize < TWO_64 && AppendLimit(c, maxSize, p).Ok?
    ensures p.tipHeight < c.expirationHeight && c.filesize < maxSize
    ensures AppendLimit(c, maxSize, p).value ==
      Min(Low64(c.FreeSectors() + Min(ByAllowance(c, p), ByCollateral(c, p))), (maxSize - c.filesize) / SECTOR_SIZE)
  {
  }

  lemma SectorsBelow(n: nat, room: nat)
    requires n <= room / SECTOR_SIZE
    ensures n * SECTOR_SIZE <= room
  {
  }

  lemma BoundsOfParts(c: Revision, maxSize: nat, p: Prices, n: nat)
    requires c.Valid() && c.filesize < maxSize && p.tipHeight < c.expirationHeight
    requires n <= Low64(c.FreeSectors() + Min(ByAllowance(c, p), ByCollateral(c, p))) && n <= (maxSize - c.filesize) / SECTOR_SIZE
    ensures c.filesize + n * SECTOR_SIZE <= maxSize
    ensures Growth(c, n) <= c.allowance / AtLeastOne(UnitCost(c, p).renter)
    ensures Growth(c, n) <= c.collateral / AtLeastOne(UnitCost(c, p).collateral)
  {
    SectorsBelow(n, maxSize - c.filesize);
    GrowthBound(c.FreeSectors(), c.allowance / AtLeastOne(UnitCost(c, p).renter),
                c.collateral / AtLeastOne(UnitCost(c, p).collateral), n);
  }

  lemma LimitBounds(c: Revision, maxSize: nat, p: Prices, n: nat)
    requires c.Valid() && maxSize < TWO_64
    requires AppendLimit(c, maxSize, p).Ok? && n <= AppendLimit(c, maxSize, p).value
    ensures p.tipHeight < c.expirationHeight && c.filesize + n * SECTOR_SIZE <= maxSize
    ensures Growth(c, n) <= c.allowance / AtLeastOne(UnitCost(c, p).renter)
    ensures Growth(c, n) <= c.collateral / AtLeastOne(UnitCost(c, p).collateral)
  {
    LimitParts(c, maxSize, p);
    BoundsOfParts(c, maxSize, p, n);
  }

  // What a sector is counted for where the limit is computed: a cost of zero becomes one.
  function Charged(c: Revision, p: Prices): Cost
    requires p.tipHeight < c.expirationHeight
  {
    Cost(AtLeastOne(UnitCost(c, p).renter), AtLeastOne(UnitCost(c, p).collateral))
  }

  // Truncation never makes the limit unaffordable or too large.
  lemma LimitFits(c: Revision, maxSize: nat, p: Prices, n: nat)
    requires c.Valid() && maxSize < TWO_64
    requires AppendLimit(c, maxSize, p).Ok? && n <= AppendLimit(c, maxSize, p).value
    ensures p.tipHeight < c.expirationHeight && Fits(c, maxSize, n, UnitCost(c, p)) && Fits(c, maxSize, n, Charged(c, p))
  {
    LimitBounds(c, maxSize, p, n);
    WithinQuotient(Growth(c, n), c.allowance, UnitCost(c, p).renter);
    WithinQuotient(Growth(c, n), c.collateral, UnitCost(c, p).collateral);
    WithinQuotient(Growth(c, n), c.allowance, Charged(c, p).renter);
    WithinQuotient(Growth(c, n), c.collateral, Charged(c, p).collateral);
  }

  lemma BeyondQuotient(n: nat, total: nat, unit: nat)
    requires unit > 0 && n * unit <= total
    ensures n <= total / unit
  {
    QuotientTimes(total, unit);
    if total / unit + 1 <= n {
      TimesGrows(total / unit + 1, n, unit);
    }
  }

  lemma FittingIsBounded(c: Revision, maxSize: nat, p: Prices, n: nat)
    requires c.Valid() && p.tipHeight < c.expirationHeight && Fits(c, maxSize, n, Charged(c, p))
    ensures Growth(c, n) <= c.allowance / Charged(c, p).renter
    ensures Growth(c, n) <= c.collateral / Charged(c, p).collateral
    ensures n <= (maxSize - c.filesize) / SECTOR_SIZE
  {
    BeyondQuotient(Growth(c, n), c.allowance, Charged(c, p).renter);
    BeyondQuotient(Growth(c, n), c.collateral, Charged(c, p).collateral);
  }

  lemma NoWrapSum(free: nat, a: nat, k: nat)
    requires free + a < TWO_64 && free + k < TWO_64
    ensures Low64(free + Min(Low64(a), Low64(k))) == free + Min(a, k)
  {
  }

  // Neither quotient nor the sum leaves 64 bits.
  predicate NothingWraps(c: Revision, p: Prices)
    requires c.Valid() && p.tipHeight < c.expirationHeight
  {
    && c.FreeSectors() + c.allowance / Charged(c, p).renter < TWO_64
    && c.FreeSectors() + c.collateral / Charged(c, p).collateral < TWO_64
  }

  lemma NoWrap(c: Revision, p: Prices)
    requires c.Valid() && p.tipHeight < c.expirationHeight && NothingWraps(c, p)
    ensures Low64(c.FreeSectors() + Min(ByAllowance(c, p), ByCollateral(c, p)))
      == c.FreeSectors() + Min(c.allowance / Charged(c, p).renter, c.collateral / Charged(c, p).collateral)
  {
    NoWrapSum(c.FreeSectors(), c.allowance / Charged(c, p).renter, c.collateral / Charged(c, p).collateral);
  }

  // When nothing wraps, exactly the numbers of sectors up to the limit fit.
  lemma LimitIsLargest(c: Revision, maxSize: nat, p: Prices, n: nat)
    requires c.Valid() && maxSize < TWO_64 && AppendLimit(c, maxSize, p).Ok? && p.tipHeight < c.expirationHeight
    requires NothingWraps(c, p)
    ensures n <= AppendLimit(c, maxSize, p).value <==> Fits(c, maxSize, n, Charged(c, p))
  {
    if n <= AppendLimit(c, maxSize, p).value {
      LimitFits(c, maxSize, p, n);
    }
    if Fits(c, maxSize, n, Charged(c, p)) {
      FittingIsBounded(c, maxSize, p, n);
      NoWrap(c, p);
      LimitParts(c, maxSize, p);
    }
  }

  // The branch marked unreachable is reached exactly when the sum of two uint64 values is 2^64.
  lemma UnknownReasonIffWrapped(c: Revision, maxSize: nat, p: Prices)
    requires c.Valid() && maxSize < TWO_64
    ensures AppendLimit(c, maxSize, p) == Err(UnknownReason) <==>
      && c.filesize + SECTOR_SIZE <= maxSize
      && p.tipHeight < c.expirationHeight
      && c.FreeSectors() + Min(ByAllowance(c, p), ByCollateral(c, p)) == TWO_64
  {
    if c.filesize < maxSize && p.tipHeight < c.expirationHeight {
      var total := c.FreeSectors() + Min(ByAllowance(c, p), ByCollateral(c, p));
      assert c.FreeSectors() < TWO_64;
      assert total < 2 * TWO_64;
      assert Low64(total) == 0 <==> total == 0 || total == TWO_64;
    }
  }

  // A contract that wraps: full capacity but for one sector, and exactly 2^64 - 1 affordable sectors.
  lemma UnknownReasonHappens()
    ensures exists c: Revision, maxSize: nat, p: Prices ::
      c.Valid() && maxSize < TWO_64 && AppendLimit(c, maxSize, p) == Err(UnknownReason)
  {
    var c := Revision(0, SECTOR_SIZE, 10, TWO_64 - 1, TWO_64 - 1);
    var p := Prices(0, duration => Cost(1, 1));
    assert c.Valid() && AppendLimit(c, SECTOR_SIZE, p) == Err(UnknownReason);
  }

  // --- the database rows ---

  datatype Row = Row(host: Option<HostKey>, contract: Option<ContractID>)

  type Table = map<Root, Row>

  function Unpinned(sectors: Table, h: HostKey): set<Root> {
    set r | r in sectors && sectors[r] == Row(Some(h), None)
  }

  // A row after its sector was handled: pinned to one of the contracts, or lost.
  predicate Settled(row: Row, h: HostKey, ids: set<ContractID>) {
    row == Row(None, None) || (row.host == Some(h) && row.contract.Some? && row.contract.value in ids)
  }

  predicate RowTook(before: Row, after: Row, taken: bool, accepted: bool, h: HostKey, ids: set<ContractID>) {
    if !taken then after == before
    else if accepted then Settled(after, h, ids) && after.contract.Some?
    else after == Row(None, None)
  }

  // Exactly the rows of the given roots changed: the accepted ones are pinned, the others lost.
  ghost predicate Took(before: Table, after: Table, h: HostKey, ids: set<ContractID>, roots: seq<Root>, accepted: seq<Root>) {
    && before.Keys == after.Keys
    && (forall r :: r in accepted ==> r in roots)
    && forall r {:trigger RowTook(before[r], after[r], r in roots, r in accepted, h, ids)} :: r in before ==>
        RowTook(before[r], after[r], r in roots, r in accepted, h, ids)
  }

  predicate RowProgress(before: Row, after: Row, h: HostKey, ids: set<ContractID>) {
    after == before || (before == Row(Some(h), None) && Settled(after, h, ids))
  }

  // Rows only move from unpinned on the host to pinned or lost.
  ghost predicate Progress(before: Table, after: Table, h: HostKey, ids: set<ContractID>) {
    && before.Keys == after.Keys
    && forall r {:trigger RowProgress(before[r], after[r], h, ids)} :: r in before ==> RowProgress(before[r], after[r], h, ids)
  }

  lemma ProgressTwice(a: Table, b: Table, c: Table, h: HostKey, ids: set<ContractID>)
    requires Progress(a, b, h, ids) && Progress(b, c, h, ids)
    ensures Progress(a, c, h, ids)
  {
    forall r | r in a ensures RowProgress(a[r], c[r], h, ids) {
      assert RowProgress(a[r], b[r], h, ids) && RowProgress(b[r], c[r], h, ids);
    }
  }

  predicate RowTouched(before: Row, after: Row, given: bool, h: HostKey, ids: set<ContractID>) {
    if given then RowProgress(before, after, h, ids) else after == before
  }

  // At most the rows of the given roots changed, and those only from unpinned to pinned or lost.
  ghost predicate TouchesOnly(before: Table, after: Table, h: HostKey, ids: set<ContractID>, roots: seq<Root>) {
    && before.Keys == after.Keys
    && forall r {:trigger RowTouched(before[r], after[r], r in roots, h, ids)} :: r in before ==>
        RowTouched(before[r], after[r], r in roots, h, ids)
  }

  lemma TouchesMore(before: Table, after: Table, h: HostKey, ids: set<ContractID>, few: seq<Root>, roots: seq<Root>)
    requires TouchesOnly(before, after, h, ids, few) && forall r :: r in few ==> r in roots
    ensures TouchesOnly(before, after, h, ids, roots)
  {
    forall r | r in before ensures RowTouched(before[r], after[r], r in roots, h, ids) {
      assert RowTouched(before[r], after[r], r in few, h, ids);
    }
  }

  lemma TouchesIsProgress(before: Table, after: Table, h: HostKey, ids: set<ContractID>, roots: seq<Root>)
    requires TouchesOnly(before, after, h, ids, roots)
    ensures Progress(before, after, h, ids)
  {
    forall r | r in before ensures RowProgress(before[r], after[r], h, ids) {
      assert RowTouched(before[r], after[r], r in roots, h, ids);
    }
  }

  lemma TookIsProgress(before: Table, after: Table, h: HostKey, ids: set<ContractID>, roots: seq<Root>, accepted: seq<Root>)
    requires Took(before, after, h, ids, roots, accepted) && forall r :: r in roots ==> r in Unpinned(before, h)
    ensures Progress(before, after, h, ids)
  {
    forall r | r in before ensures RowProgress(before[r], after[r], h, ids) {
      assert RowTook(before[r], after[r], r in roots, r in accepted, h, ids);
    }
  }

  predicate Distinct<T(==)>(s: seq<T>) {
    forall i, j :: 0 <= i < j < |s| ==> s[i] != s[j]
  }

  class Store {
    var sectors: Table

    method MarkSectorsLost(h: HostKey, roots: set<Root>, ok: bool)
      modifies this
      ensures sectors == if ok then WithLost(old(sectors), h, roots) else old(sectors)
    {
      if ok {
        sectors := WithLost(sectors, h, roots);
      }
    }

    method PinSectors(h: HostKey, id: ContractID, roots: seq<Root>, ok: bool)
      modifies this
      ensures sectors == if ok then WithPinned(old(sectors), h, id, roots) else old(sectors)
    {
      if ok {
        sectors := WithPinned(sectors, h, id, roots);
      }
    }

    // The oldest unpinned sectors of the host, at most limit of them.
    method UnpinnedSectors(h: HostKey, limit: nat) returns (roots: seq<Root>)
      ensures Distinct(roots) && |roots| == Min(limit, |Unpinned(sectors, h)|)
      ensures forall x :: x in roots ==> x in Unpinned(sectors, h)
    {
      roots := SomeOf(Unpinned(sectors, h), limit);
    }
  }

  method SomeOf(pool: set<Root>, limit: nat) returns (roots: seq<Root>)
    ensures Distinct(roots) && |roots| == Min(limit, |pool|)
    ensures forall x :: x in roots ==> x in pool
  {
    roots := [];
    var rest := pool;
    while |roots| < limit && rest != {}
      invariant Distinct(roots) && |roots| <= limit && |roots| + |rest| == |pool|
      invariant rest <= pool && forall x :: x in roots ==> x in pool && x !in rest
      decreases rest
    {
      var x :| x in rest;
      roots, rest := roots + [x], rest - {x};
    }
  }

  function WithLost(sectors: Table, h: HostKey, roots: set<Root>): Table {
    map r | r in sectors :: if r in roots && sectors[r].host == Some(h) then Row(None, None) else sectors[r]
  }

  function WithPinned(sectors: Table, h: HostKey, id: ContractID, roots: seq<Root>): Table {
    map r | r in sectors ::
      if r in roots && (sectors[r].host.None? || sectors[r].host == Some(h)) && sectors[r].contract != Some(id)
      then Row(Some(h), Some(id)) else sectors[r]
  }

  // --- one contract ---

  // The attempted roots the host accepted.
  function Accepted(roots: seq<Root>, mask: seq<bool>): (r: seq<Root>)
    requires |roots| == |mask|
    ensures |r| <= |roots|
    ensures forall x :: x in r ==> x in roots
  {
    if roots == [] then []
    else (if mask[0] then [roots[0]] else []) + Accepted(roots[1..], mask[1..])
  }

  lemma {:induction false} AllAccepted(roots: seq<Root>, mask: seq<bool>)
    requires |roots| == |mask| && |Accepted(roots, mask)| == |roots|
    ensures Accepted(roots, mask) == roots
  {
    if roots != [] {
      AllAccepted(roots[1..], mask[1..]);
    }
  }

  // A contract of the host, as the revision its lock holder works on.
  class PinContract {
    const id: ContractID
    var rev: Revision

    constructor (id: ContractID, rev: Revision)
      ensures this.id == id && this.rev == rev
    {
      this.id, this.rev := id, rev;
    }

    // The append RPC: the host accepts the roots that mask marks; the renter pays for the growth.
    method AppendSectors(roots: seq<Root>, mask: seq<bool>, cost: Cost, maxSize: nat) returns (appended: seq<Root>)
      requires rev.Valid() && maxSize < TWO_64 && |mask| == |roots|
      requires forall n: nat :: n <= |roots| ==> Fits(rev, maxSize, n, cost)
      modifies this
      ensures appended == Accepted(roots, mask)
      ensures Fits(old(rev), maxSize, |appended|, cost) && rev == Grown(old(rev), |appended|, cost)
      ensures rev.Valid() && rev.filesize <= maxSize
    {
      appended := Accepted(roots, mask);
      assert Fits(rev, maxSize, |appended|, cost);
      rev := Grown(rev, |appended|, cost);
    }
  }

  // The revision after n accepted sectors. The subtractions cannot underflow, because they are affordable.
  function Grown(c: Revision, n: nat, cost: Cost): Revision
    requires c.Valid() && Affordable(c, n, cost)
  {
    var filesize := c.filesize + n * SECTOR_SIZE;
    Revision(filesize, Max(c.capacity, filesize), c.expirationHeight,
             c.allowance - Growth(c, n) * cost.renter, c.collateral - Growth(c, n) * cost.collateral)
  }

  // How the world answers one contract's turn: the price lookup, the append call with what the host
  // accepts, the write of the new revision, and the two database updates.
  datatype Answer = Answer(prices: Option<Prices>, append: Option<nat -> bool>, writeOk: bool, markOk: bool, pinOk: bool)

  // A contract does not grow, or not past maxSize.
  twostate predicate StaysSmall(c: PinContract, maxSize: nat)
    reads c
  {
    c.rev.Valid() && (c.rev == old(c.rev) || c.rev.filesize <= maxSize)
  }

  lemma SplitIsTook(before: Table, h: HostKey, id: ContractID, roots: seq<Root>, mask: seq<bool>)
    requires |roots| == |mask| && forall r :: r in roots ==> r in before && before[r] == Row(Some(h), None)
    ensures var pinned := Accepted(roots, mask);
      Took(before, WithPinned(WithLost(before, h, Missing(roots, pinned)), h, id, pinned), h, {id}, roots, pinned)
  {
  }

  function Missing(roots: seq<Root>, appended: seq<Root>): set<Root> {
    set r | r in roots && r !in appended
  }

  // After the RPC: what the host did not accept is lost, the rest is pinned.
  method RecordAppend(store: Store, h: HostKey, id: ContractID, roots: seq<Root>, mask: seq<bool>, appended: seq<Root>, answer: Answer)
    returns (storeFailed: bool)
    requires |roots| == |mask| && appended == Accepted(roots, mask)
    requires forall r :: r in roots ==> r in Unpinned(store.sectors, h)
    modifies store
    ensures storeFailed <==> !answer.pinOk || (|appended| != |roots| && !answer.markOk)
    ensures !storeFailed ==> Took(old(store.sectors), store.sectors, h, {id}, roots, appended)
    ensures storeFailed ==> TouchesOnly(old(store.sectors), store.sectors, h, {id}, roots)
  {
    SplitIsTook(store.sectors, h, id, roots, mask);
    var missing := Missing(roots, appended);
    if |appended| != |roots| {
      store.MarkSectorsLost(h, missing, answer.markOk);
      if !answer.markOk {
        return true;
      }
    } else {
      AllAccepted(roots, mask);
      assert WithLost(store.sectors, h, missing) == store.sectors;
    }
    store.PinSectors(h, id, appended, answer.pinOk);
    return !answer.pinOk;
  }

  // The append call is made and answered.
  predicate Appends(rev: Revision, maxSize: nat, answer: Answer)
    requires rev.Valid() && maxSize < TWO_64
  {
    answer.prices.Some? && AppendLimit(rev, maxSize, answer.prices.value).Ok? && answer.append.Some?
  }

  // How many sectors a contract's turn attempts at most: none if it comes to nothing.
  function TurnLimit(rev: Revision, maxSize: nat, answer: Answer): nat
    requires rev.Valid() && maxSize < TWO_64
  {
    if Appends(rev, maxSize, answer) && answer.writeOk then AppendLimit(rev, maxSize, answer.prices.value).value else 0
  }

  function Mask(accepts: nat -> bool, n: nat): (r: seq<bool>)
    ensures |r| == n
  {
    if n == 0 then [] else Mask(accepts, n - 1) + [accepts(n - 1)]
  }

  // The ones the host accepts of those it is given.
  function AcceptedOf(answer: Answer, roots: seq<Root>): (r: seq<Root>)
    ensures |r| <= |roots|
  {
    if answer.append.None? then [] else Accepted(roots, Mask(answer.append.value, |roots|))
  }

  // A database update after the turn fails.
  predicate StoreFails(answer: Answer, roots: seq<Root>) {
    roots != [] && (!answer.pinOk || (|AcceptedOf(answer, roots)| != |roots| && !answer.markOk))
  }

  // The contract after its turn: it grew by exactly what the host accepted of the sectors it was given.
  ghost predicate Turned(rev: Revision, after: Revision, maxSize: nat, answer: Answer, sectors: seq<Root>, accepted: seq<Root>)
    requires rev.Valid() && maxSize < TWO_64
  {
    if Appends(rev, maxSize, answer) then
      var n, cost := Min(|sectors|, AppendLimit(rev, maxSize, answer.prices.value).value), UnitCost(rev, answer.prices.value);
      && accepted == AcceptedOf(answer, sectors[..n])
      && Fits(rev, maxSize, |accepted|, cost) && after == Grown(rev, |accepted|, cost)
    else after == rev && accepted == []
  }

  // One iteration of pinSectors. When the new revision cannot be written the host has the sectors, but
  // the iteration counts for nothing.
  method TryContract(store: Store, h: HostKey, c: PinContract, sectors: seq<Root>, maxSize: nat, answer: Answer)
    returns (attempted: nat, success: bool, storeFailed: bool, ghost accepted: seq<Root>)
    requires c.rev.Valid() && maxSize < TWO_64 && sectors != []
    requires forall r :: r in sectors ==> r in Unpinned(store.sectors, h)
    modifies store, c
    ensures StaysSmall(c, maxSize)
    ensures success <==> Appends(old(c.rev), maxSize, answer) && answer.writeOk
    ensures attempted == Min(|sectors|, TurnLimit(old(c.rev), maxSize, answer))
    ensures storeFailed <==> StoreFails(answer, sectors[..attempted])
    ensures !success ==> store.sectors == old(store.sectors)
    // the contract grew by exactly the accepted sectors; these are pinned, the other attempted ones lost
    ensures Turned(old(c.rev), c.rev, maxSize, answer, sectors, accepted)
    ensures success ==> accepted == AcceptedOf(answer, sectors[..attempted])
    ensures success && !storeFailed ==> Took(old(store.sectors), store.sectors, h, {c.id}, sectors[..attempted], accepted)
    ensures storeFailed ==> TouchesOnly(old(store.sectors), store.sectors, h, {c.id}, sectors)
  {
    attempted, success, storeFailed, accepted := 0, false, false, [];
    if answer.prices.None? {
      return;
    }
    var limit := AppendLimit(c.rev, maxSize, answer.prices.value);
    if limit.Err? || answer.append.None? {
      return;
    }
    var cost := UnitCost(c.rev, answer.prices.value);
    var n := Min(|sectors|, limit.value);
    var roots := sectors[..n];
    forall m: nat | m <= |roots| ensures Fits(c.rev, maxSize, m, cost) {
      LimitFits(c.rev, maxSize, answer.prices.value, m);
    }
    var mask := Mask(answer.append.value, n);
    var appended := c.AppendSectors(roots, mask, cost, maxSize);
    accepted := appended;
    if !answer.writeOk {
      return;
    }
    attempted, success := n, true;
    storeFailed := RecordAppend(store, h, c.id, roots, mask, appended, answer);
    if storeFailed {
      TouchesMore(old(store.sectors), store.sectors, h, {c.id}, roots, sectors);
    }
  }

  // --- room ---

  // total more sectors fit the contract, and nothing leaves 64 bits.
  predicate Room(rev: Revision, maxSize: nat, p: Prices, total: nat) {
    && rev.Valid() && maxSize < TWO_64 && p.tipHeight < rev.expirationHeight
    && NothingWraps(rev, p) && Fits(rev, maxSize, total, Charged(rev, p))
  }

  lemma FewerFit(rev: Revision, maxSize: nat, n: nat, total: nat, cost: Cost)
    requires rev.Valid() && n <= total && Fits(rev, maxSize, total, cost)
    ensures Fits(rev, maxSize, n, cost)
  {
    TimesGrows(Growth(rev, n), Growth(rev, total), cost.renter);
    TimesGrows(Growth(rev, n), Growth(rev, total), cost.collateral);
  }

  // Where there is room for n sectors the limit lets them all be attempted.
  lemma RoomGivesLimit(rev: Revision, maxSize: nat, p: Prices, total: nat, n: nat)
    requires Room(rev, maxSize, p, total) && 0 < n <= total
    ensures AppendLimit(rev, maxSize, p).Ok? && n <= AppendLimit(rev, maxSize, p).value
  {
    FewerFit(rev, maxSize, n, total, Charged(rev, p));
    FittingIsBounded(rev, maxSize, p, n);
    NoWrap(rev, p);
    LimitReaches(rev, maxSize, p, n);
  }

  lemma LimitReaches(rev: Revision, maxSize: nat, p: Prices, n: nat)
    requires rev.Valid() && maxSize < TWO_64 && p.tipHeight < rev.expirationHeight && rev.filesize < maxSize
    requires 0 < n <= (maxSize - rev.filesize) / SECTOR_SIZE
    requires n <= Low64(rev.FreeSectors() + Min(ByAllowance(rev, p), ByCollateral(rev, p)))
    ensures AppendLimit(rev, maxSize, p).Ok? && n <= AppendLimit(rev, maxSize, p).value
  {
  }

  lemma GrownFree(rev: Revision, n: nat, cost: Cost)
    requires rev.Valid() && Affordable(rev, n, cost)
    ensures var g := Grown(rev, n, cost);
      g.filesize <= g.capacity && (g.capacity - g.filesize) / SECTOR_SIZE == if n <= rev.FreeSectors() then rev.FreeSectors() - n else 0
  {
  }

  lemma SmallerQuotient(a: nat, b: nat, unit: nat)
    requires a <= b && unit > 0
    ensures a / unit <= b / unit
  {
    QuotientTimes(a, unit);
    QuotientTimes(b, unit);
    if b / unit + 1 <= a / unit {
      TimesGrows(b / unit + 1, a / unit, unit);
    }
  }

  lemma TimesSplits(a: nat, b: nat, c: nat, unit: nat)
    requires a + b <= c
    ensures a * unit + b * unit <= c * unit
  {
    assert (a + b) * unit == a * unit + b * unit;
    TimesGrows(a + b, c, unit);
  }

  // After attempting n sectors, of which m were accepted, there is room for the others.
  lemma TimesLess(a: nat, unit: nat, larger: nat)
    requires unit <= larger
    ensures a * unit <= a * larger
  {
  }

  // What is left of some funds after paying for m pays for the others.
  lemma FundsAfter(funds: nat, gm: nat, rest: nat, all: nat, unit: nat, charged: nat)
    requires unit <= charged && gm + rest <= all && all * charged <= funds
    ensures gm * unit <= funds && rest * charged <= funds - gm * unit
  {
    TimesSplits(gm, rest, all, charged);
    TimesLess(gm, unit, charged);
  }

  lemma RoomAfter(rev: Revision, maxSize: nat, p: Prices, total: nat, n: nat, m: nat)
    requires Room(rev, maxSize, p, total) && m <= n <= total && Affordable(rev, m, UnitCost(rev, p))
    ensures Room(Grown(rev, m, UnitCost(rev, p)), maxSize, p, total - n)
  {
    var cost, charged := UnitCost(rev, p), Charged(rev, p);
    var g := Grown(rev, m, cost);
    FewerFit(rev, maxSize, m, total, charged);
    GrownFree(rev, m, cost);
    assert UnitCost(g, p) == cost && Charged(g, p) == charged;
    SmallerQuotient(g.allowance, rev.allowance, charged.renter);
    SmallerQuotient(g.collateral, rev.collateral, charged.collateral);
    FundsAfter(rev.allowance, Growth(rev, m), Growth(g, total - n), Growth(rev, total), cost.renter, charged.renter);
    FundsAfter(rev.collateral, Growth(rev, m), Growth(g, total - n), Growth(rev, total), cost.collateral, charged.collateral);
  }

  // Nothing fails on this contract, at these prices.
  ghost predicate Undisturbed(answer: Answer, p: Prices) {
    answer.prices == Some(p) && answer.append.Some? && answer.writeOk && answer.markOk && answer.pinOk
  }

  // --- all contracts ---

  datatype PinError = TooManySectors | StoreError | AllContractsFailed

  lemma TookMore(a: Table, b: Table, c: Table, h: HostKey, ids: set<ContractID>, id: ContractID,
                 first: seq<Root>, firstOk: seq<Root>, second: seq<Root>, secondOk: seq<Root>)
    requires Took(a, b, h, ids, first, firstOk) && Took(b, c, h, {id}, second, secondOk) && id in ids
    requires forall r :: r in first ==> r !in second
    ensures Took(a, c, h, ids, first + second, firstOk + secondOk)
  {
    forall r | r in a ensures RowTook(a[r], c[r], r in first + second, r in firstOk + secondOk, h, ids) {
      assert RowTook(a[r], b[r], r in first, r in firstOk, h, ids);
      assert RowTook(b[r], c[r], r in second, r in secondOk, h, {id});
    }
  }

  lemma TookTouches(a: Table, b: Table, c: Table, h: HostKey, ids: set<ContractID>, id: ContractID,
                    first: seq<Root>, accepted: seq<Root>, second: seq<Root>, all: seq<Root>)
    requires Took(a, b, h, ids, first, accepted) && TouchesOnly(b, c, h, {id}, second) && id in ids
    requires (forall r :: r in first ==> r in all && r in Unpinned(a, h)) && (forall r :: r in second ==> r in all)
    ensures TouchesOnly(a, c, h, ids, all)
  {
    forall r | r in a ensures RowTouched(a[r], c[r], r in all, h, ids) {
      assert RowTook(a[r], b[r], r in first, r in accepted, h, ids);
      assert RowTouched(b[r], c[r], r in second, h, {id});
    }
  }

  lemma RestStaysUnpinned(a: Table, b: Table, h: HostKey, ids: set<ContractID>, sectors: seq<Root>, taken: nat, accepted: seq<Root>)
    requires taken <= |sectors| && Distinct(sectors) && Took(a, b, h, ids, sectors[..taken], accepted)
    requires forall r :: r in sectors ==> r in Unpinned(a, h)
    ensures forall r :: r in sectors[taken..] ==> r in Unpinned(b, h)
  {
    forall i | taken <= i < |sectors| ensures sectors[i] in Unpinned(b, h) {
      var r := sectors[i];
      assert r in Unpinned(a, h) && r !in sectors[..taken];
      assert RowTook(a[r], b[r], r in sectors[..taken], r in accepted, h, ids);
    }
  }

  lemma NothingTaken(a: Table, b: Table, h: HostKey, ids: set<ContractID>, accepted: seq<Root>, all: seq<Root>)
    requires Took(a, b, h, ids, [], accepted)
    ensures TouchesOnly(a, b, h, ids, all) && Progress(a, b, h, ids)
  {
    forall r | r in a ensures b[r] == a[r] {
      assert RowTook(a[r], b[r], r in [], r in accepted, h, ids);
    }
  }

  function IDs(cs: seq<PinContract>): set<ContractID> {
    set c | c in cs :: c.id
  }

  // Everything is attempted in the first contract's turn, if it has room and nothing fails there.
  ghost predicate FirstTakesAll(contracts: seq<PinContract>, rev: Revision, sectors: seq<Root>, maxSize: nat, batch: nat,
                                answers: nat -> Answer, p: Prices, total: nat) {
    contracts != [] && 0 < |sectors| <= batch && |sectors| <= total && Undisturbed(answers(0), p) && Room(rev, maxSize, p, total)
  }

  ghost predicate RoomAt(room: (Revision, nat) -> bool, rev: Revision, n: nat, maxSize: nat, p: Prices) {
    room(rev, n) <==> Room(rev, maxSize, p, n)
  }

  // room says where there is room for how many sectors.
  ghost predicate TellsRoom(room: (Revision, nat) -> bool, maxSize: nat, p: Prices) {
    forall rev, n: nat {:trigger RoomAt(room, rev, n, maxSize, p)} :: RoomAt(room, rev, n, maxSize, p)
  }

  // The turns of pinSectors, one contract after the other, with how many sectors each attempts at most.
  datatype Turns = Turns(limits: seq<nat>, sectors: seq<Root>, answers: nat -> Answer) {

    // How many sectors the first k contracts attempt: each as many as its limit lets it of those left.
    function Taken(k: nat): (r: nat)
      requires k <= |limits|
      ensures r <= |sectors|
    {
      if k == 0 then 0 else Taken(k - 1) + Min(|sectors| - Taken(k - 1), limits[k - 1])
    }

    // Those of the k-th contract.
    function Given(k: nat): seq<Root>
      requires k < |limits|
    {
      sectors[Taken(k)..Taken(k) + Min(|sectors| - Taken(k), limits[k])]
    }

    // Which of them their hosts accept.
    function Pinned(k: nat): seq<Root>
      requires k <= |limits|
    {
      if k == 0 then [] else Pinned(k - 1) + AcceptedOf(answers(k - 1), Given(k - 1))
    }

    // A database update fails in one of the first k turns.
    predicate Broken(k: nat)
      requires k <= |limits|
    {
      k > 0 && (Broken(k - 1) || StoreFails(answers(k - 1), Given(k - 1)))
    }

    // What the turns come to in the end.
    ghost predicate Ended(broken: bool, taken: nat, accepted: seq<Root>) {
      if Broken(|limits|) then broken else !broken && taken == Taken(|limits|) && accepted == Pinned(|limits|)
    }

    // Where the turns stand before the k-th one.
    ghost predicate Stand(k: nat, taken: nat, accepted: seq<Root>) {
      k <= |limits| && taken == Taken(k) && accepted == Pinned(k) && !Broken(k)
    }

    lemma Step(k: nat, given: seq<Root>)
      requires k < |limits| && given == Given(k)
      ensures Taken(k + 1) == Taken(k) + |given| && Pinned(k + 1) == Pinned(k) + AcceptedOf(answers(k), given)
      ensures Broken(k + 1) <==> Broken(k) || StoreFails(answers(k), given)
    {
    }

    // And after it.
    ghost predicate After(k: nat, taken: nat, accepted: seq<Root>, broken: bool) {
      if broken then Broken(|limits|) else Stand(k + 1, taken, accepted)
    }

    // The limits are those of contracts with these revisions.
    ghost predicate Match(revs: seq<Revision>, maxSize: nat) {
      && |revs| == |limits|
      && forall j {:trigger MatchAt(revs, maxSize, j)} :: 0 <= j < |limits| ==> MatchAt(revs, maxSize, j)
    }

    ghost predicate MatchAt(revs: seq<Revision>, maxSize: nat, j: nat) {
      && j < |limits| == |revs| && maxSize < TWO_64 && revs[j].Valid()
      && limits[j] == TurnLimit(revs[j], maxSize, answers(j))
    }

    lemma Unbroken(k: nat, taken: nat, accepted: seq<Root>, given: seq<Root>)
      requires k < |limits| && given == Given(k) && Stand(k, taken, accepted) && !StoreFails(answers(k), given)
      ensures Stand(k + 1, taken + |given|, accepted + AcceptedOf(answers(k), given))
    {
      Step(k, given);
    }

    lemma Breaks(k: nat)
      requires k < |limits| && StoreFails(answers(k), Given(k))
      ensures Broken(|limits|)
    {
      assert Broken(k + 1);
      BrokenStays(k + 1, |limits|);
    }

    lemma Next(k: nat, taken: nat, accepted: seq<Root>, given: seq<Root>)
      requires k < |limits| && taken <= |sectors| && Stand(k, taken, accepted)
      requires given == sectors[taken..taken + Min(|sectors| - taken, limits[k])]
      ensures After(k, taken + |given|, accepted + AcceptedOf(answers(k), given), StoreFails(answers(k), given))
    {
      if StoreFails(answers(k), given) {
        Breaks(k);
      } else {
        Unbroken(k, taken, accepted, given);
      }
    }

    lemma Finish(k: nat, taken: nat, accepted: seq<Root>)
      requires Stand(k, taken, accepted) && (k == |limits| || taken == |sectors|)
      ensures Ended(false, taken, accepted)
    {
      if k < |limits| {
        NothingLeft(k, |limits|);
      }
    }

    lemma {:induction false} BrokenStays(j: nat, k: nat)
      requires j <= k <= |limits| && Broken(j)
      ensures Broken(k)
      decreases k
    {
      if j < k {
        BrokenStays(j, k - 1);
      }
    }

    lemma NothingGiven(k: nat)
      requires k < |limits| && Taken(k) == |sectors|
      ensures Taken(k + 1) == |sectors| && Pinned(k + 1) == Pinned(k) && (Broken(k + 1) <==> Broken(k))
    {
      assert Given(k) == [];
      NoneAccepted(answers(k));
    }

    // Once everything is attempted the other contracts are left alone.
    lemma {:induction false} NothingLeft(j: nat, k: nat)
      requires j <= k <= |limits| && Taken(j) == |sectors|
      ensures Taken(k) == |sectors| && Pinned(k) == Pinned(j) && (Broken(k) <==> Broken(j))
      decreases k - j
    {
      if j < k {
        NothingGiven(j);
        NothingLeft(j + 1, k);
      }
    }
  }

  lemma NoneAccepted(answer: Answer)
    ensures AcceptedOf(answer, []) == []
  {
  }

  function Limits(revs: seq<Revision>, maxSize: nat, answers: nat -> Answer): (r: seq<nat>)
    requires maxSize < TWO_64 && forall i :: 0 <= i < |revs| ==> revs[i].Valid()
    ensures |r| == |revs|
  {
    if revs == [] then []
    else
      var n := |revs| - 1;
      Limits(revs[..n], maxSize, answers) + [TurnLimit(revs[n], maxSize, answers(n))]
  }

  lemma {:induction false} LimitsAt(revs: seq<Revision>, maxSize: nat, answers: nat -> Answer, i: nat)
    requires maxSize < TWO_64 && (forall i :: 0 <= i < |revs| ==> revs[i].Valid()) && i < |revs|
    ensures Limits(revs, maxSize, answers)[i] == TurnLimit(revs[i], maxSize, answers(i))
  {
    if i < |revs| - 1 {
      LimitsAt(revs[..|revs| - 1], maxSize, answers, i);
    }
  }

  lemma LimitsMatch(revs: seq<Revision>, maxSize: nat, sectors: seq<Root>, answers: nat -> Answer)
    requires maxSize < TWO_64 && forall i :: 0 <= i < |revs| ==> revs[i].Valid()
    ensures Turns(Limits(revs, maxSize, answers), sectors, answers).Match(revs, maxSize)
  {
    var turns := Turns(Limits(revs, maxSize, answers), sectors, answers);
    forall j: nat | j < |revs| ensures turns.MatchAt(revs, maxSize, j) {
      LimitsAt(revs, maxSize, answers, j);
    }
  }

  lemma {:induction false} NothingTakenIff(turns: Turns, k: nat)
    requires k <= |turns.limits|
    ensures turns.Taken(k) == 0 <==> turns.sectors == [] || forall j :: 0 <= j < k ==> turns.limits[j] == 0
  {
    if k > 0 {
      NothingTakenIff(turns, k - 1);
    }
  }

  // Nothing is attempted, which is the error that all contracts failed, exactly when there was nothing to
  // pin or no contract's turn appends and writes its revision.
  lemma AllFailedIff(revs: seq<Revision>, maxSize: nat, sectors: seq<Root>, answers: nat -> Answer)
    requires maxSize < TWO_64 && forall i :: 0 <= i < |revs| ==> revs[i].Valid()
    ensures Turns(Limits(revs, maxSize, answers), sectors, answers).Taken(|revs|) == 0 <==>
      sectors == [] || forall j :: 0 <= j < |revs| ==> !(Appends(revs[j], maxSize, answers(j)) && answers(j).writeOk)
  {
    NothingTakenIff(Turns(Limits(revs, maxSize, answers), sectors, answers), |revs|);
    forall j | 0 <= j < |revs|
      ensures Limits(revs, maxSize, answers)[j] == 0 <==> !(Appends(revs[j], maxSize, answers(j)) && answers(j).writeOk)
    {
      LimitsAt(revs, maxSize, answers, j);
    }
  }

  function Revs(contracts: seq<PinContract>): (r: seq<Revision>)
    reads contracts
    ensures |r| == |contracts| && forall i :: 0 <= i < |contracts| ==> r[i] == contracts[i].rev
  {
    if contracts == [] then [] else Revs(contracts[..|contracts| - 1]) + [contracts[|contracts| - 1].rev]
  }

  // The k-th turn is that of a contract with this revision.
  ghost predicate TurnOf(turns: Turns, revs: seq<Revision>, k: nat, rev: Revision, sectors: seq<Root>, answer: Answer) {
    k < |revs| && revs[k] == rev && turns.sectors == sectors && turns.answers(k) == answer
  }

  lemma TurnStands(turns: Turns, revs: seq<Revision>, maxSize: nat, k: nat, rev: Revision, sectors: seq<Root>, answer: Answer,
                   taken: nat, before: seq<Root>, now: nat, accepted: seq<Root>, storeFailed: bool)
    requires turns.Match(revs, maxSize) && TurnOf(turns, revs, k, rev, sectors, answer) && turns.Stand(k, taken, before)
    requires taken <= now <= |sectors| && rev.Valid() && maxSize < TWO_64
    requires now == taken + Min(|sectors| - taken, TurnLimit(rev, maxSize, answer))
    requires accepted == AcceptedOf(answer, sectors[taken..now]) && (storeFailed <==> StoreFails(answer, sectors[taken..now]))
    ensures turns.After(k, now, before + accepted, storeFailed)
  {
    assert turns.MatchAt(revs, maxSize, k);
    turns.Next(k, taken, before, sectors[taken..now]);
  }

  lemma SmoothTurn(rev: Revision, after: Revision, maxSize: nat, answer: Answer, sectors: seq<Root>, accepted: seq<Root>,
                   room: (Revision, nat) -> bool, p: Prices, total: nat)
    requires rev.Valid() && maxSize < TWO_64 && Turned(rev, after, maxSize, answer, sectors, accepted)
    requires TellsRoom(room, maxSize, p) && Undisturbed(answer, p) && 0 < |sectors| <= total && room(rev, total)
    ensures Min(|sectors|, TurnLimit(rev, maxSize, answer)) == |sectors| && room(after, total - |sectors|)
  {
    assert RoomAt(room, rev, total, maxSize, p);
    RoomGivesLimit(rev, maxSize, p, total, |sectors|);
    RoomAfter(rev, maxSize, p, total, |sectors|, |accepted|);
    assert RoomAt(room, after, total - |sectors|, maxSize, p);
  }

  // A contract's turn on the sectors from taken on; where it has room for all of them and nothing fails, it
  // takes them all.
  method TakeTurn(store: Store, h: HostKey, c: PinContract, sectors: seq<Root>, taken: nat, maxSize: nat, answer: Answer,
                  ghost turns: Turns, ghost revs: seq<Revision>, ghost k: nat, ghost before: seq<Root>,
                  ghost room: (Revision, nat) -> bool, ghost p: Prices, ghost total: nat)
    returns (now: nat, storeFailed: bool, ghost accepted: seq<Root>)
    requires c.rev.Valid() && maxSize < TWO_64 && taken < |sectors| && TellsRoom(room, maxSize, p)
    requires forall r :: r in sectors[taken..] ==> r in Unpinned(store.sectors, h)
    modifies store, c
    ensures StaysSmall(c, maxSize) && taken <= now <= |sectors|
    ensures turns.Match(revs, maxSize) && TurnOf(turns, revs, k, old(c.rev), sectors, answer) && turns.Stand(k, taken, before) ==>
      turns.After(k, now, before + accepted, storeFailed)
    ensures now == taken ==> !storeFailed && accepted == [] && store.sectors == old(store.sectors)
    ensures now > taken && !storeFailed ==> Took(old(store.sectors), store.sectors, h, {c.id}, sectors[taken..now], accepted)
    ensures storeFailed ==> TouchesOnly(old(store.sectors), store.sectors, h, {c.id}, sectors[taken..])
    ensures Undisturbed(answer, p) && |sectors| - taken <= total && room(old(c.rev), total) ==>
      !storeFailed && now == |sectors| && room(c.rev, total - (now - taken))
  {
    ghost var n, rev := |sectors| - taken, c.rev;
    var attempted, success;
    attempted, success, storeFailed, accepted := TryContract(store, h, c, sectors[taken..], maxSize, answer);
    now := taken + attempted;
    assert sectors[taken..][..attempted] == sectors[taken..now];
    ghost var given := accepted;
    if !success {
      accepted := [];
      NoneAccepted(answer);
    }
    if turns.Match(revs, maxSize) && TurnOf(turns, revs, k, rev, sectors, answer) && turns.Stand(k, taken, before) {
      TurnStands(turns, revs, maxSize, k, rev, sectors, answer, taken, before, now, accepted, storeFailed);
    }
    if Undisturbed(answer, p) && n <= total && room(rev, total) {
      SmoothTurn(rev, c.rev, maxSize, answer, sectors[taken..], given, room, p, total);
    }
  }

  // A turn that took the sectors from taken to now.
  lemma TurnTook(start: Table, before: Table, after: Table, h: HostKey, ids: set<ContractID>, id: ContractID,
                 sectors: seq<Root>, taken: nat, now: nat, accepted: seq<Root>, here: seq<Root>)
    requires taken <= now <= |sectors| && Distinct(sectors) && id in ids
    requires Took(start, before, h, ids, sectors[..taken], accepted)
    requires if taken == now then after == before && here == [] else Took(before, after, h, {id}, sectors[taken..now], here)
    ensures Took(start, after, h, ids, sectors[..now], accepted + here)
  {
    if taken == now {
      assert accepted + here == accepted;
    } else {
      TookMore(start, before, after, h, ids, id, sectors[..taken], accepted, sectors[taken..now], here);
      assert sectors[..now] == sectors[..taken] + sectors[taken..now];
    }
  }

  // One contract's turn with what the turns before it took. start is the table before the first turn.
  method PinTurn(store: Store, h: HostKey, c: PinContract, ghost ids: set<ContractID>, sectors: seq<Root>, maxSize: nat, answer: Answer,
                 ghost turns: Turns, ghost revs: seq<Revision>, ghost k: nat, ghost start: Table,
                 taken: nat, ghost accepted: seq<Root>,
                 ghost room: (Revision, nat) -> bool, ghost p: Prices, ghost total: nat)
    returns (now: nat, storeFailed: bool, ghost nowAccepted: seq<Root>)
    requires c.rev.Valid() && c.id in ids && maxSize < TWO_64 && taken < |sectors| && Distinct(sectors)
    requires (forall r :: r in sectors ==> r in Unpinned(start, h)) && TellsRoom(room, maxSize, p)
    requires Took(start, store.sectors, h, ids, sectors[..taken], accepted)
    modifies store, c
    ensures StaysSmall(c, maxSize) && taken <= now <= |sectors| && (storeFailed ==> now == taken)
    ensures turns.Match(revs, maxSize) && TurnOf(turns, revs, k, old(c.rev), sectors, answer) && turns.Stand(k, taken, accepted) ==>
      turns.After(k, now, nowAccepted, storeFailed)
    ensures !storeFailed ==> Took(start, store.sectors, h, ids, sectors[..now], nowAccepted)
    ensures storeFailed ==> TouchesOnly(start, store.sectors, h, ids, sectors) && Progress(start, store.sectors, h, ids)
    ensures Undisturbed(answer, p) && |sectors| - taken <= total && room(old(c.rev), total) ==>
      !storeFailed && now == |sectors| && room(c.rev, total - (now - taken))
  {
    ghost var before := store.sectors;
    RestStaysUnpinned(start, before, h, ids, sectors, taken, accepted);
    ghost var here;
    now, storeFailed, here := TakeTurn(store, h, c, sectors, taken, maxSize, answer, turns, revs, k, accepted, room, p, total);
    nowAccepted := accepted + here;
    if storeFailed {
      TookTouches(start, before, store.sectors, h, ids, c.id, sectors[..taken], accepted, sectors[taken..], sectors);
      TouchesIsProgress(start, store.sectors, h, ids, sectors);
      now := taken;
    } else {
      TurnTook(start, before, store.sectors, h, ids, c.id, sectors, taken, now, accepted, here);
    }
  }

  // What the loop over the contracts starts from: the rows, the revisions, and what the turns will be.
  ghost predicate Started(contracts: seq<PinContract>, revs: seq<Revision>, sectors: seq<Root>, maxSize: nat, h: HostKey,
                          start: Table, answers: nat -> Answer, turns: Turns) {
    && |revs| == |contracts| && maxSize < TWO_64 && Distinct(sectors) && (forall r :: r in sectors ==> r in Unpinned(start, h))
    && turns.sectors == sectors && turns.answers == answers && turns.Match(revs, maxSize)
  }

  predicate RevSmall(rev: Revision, before: Revision, maxSize: nat) {
    rev.Valid() && (rev == before || rev.filesize <= maxSize)
  }

  ghost predicate AllSmall(contracts: seq<PinContract>, revs: seq<Revision>, maxSize: nat)
    requires |revs| == |contracts|
    reads contracts
  {
    forall j {:trigger contracts[j]} :: 0 <= j < |contracts| ==> RevSmall(contracts[j].rev, revs[j], maxSize)
  }

  ghost predicate NotYet(contracts: seq<PinContract>, revs: seq<Revision>, i: nat)
    requires |revs| == |contracts|
    reads contracts
  {
    forall j {:trigger contracts[j]} :: i <= j < |contracts| ==> contracts[j].rev == revs[j]
  }

  // If the first contract's turn is to take everything, it can, or it has.
  ghost predicate FirstTook(contracts: seq<PinContract>, first: bool, i: nat, taken: nat, all: nat, answers: nat -> Answer,
                            room: (Revision, nat) -> bool, p: Prices, total: nat)
    reads contracts
  {
    first ==>
      && contracts != [] && 0 < all <= total
      && if i == 0 then taken == 0 && Undisturbed(answers(0), p) && room(contracts[0].rev, total)
         else taken == all && room(contracts[0].rev, total - all)
  }

  // Before the i-th turn.
  ghost predicate Before(store: Store, h: HostKey, contracts: seq<PinContract>, revs: seq<Revision>, sectors: seq<Root>, maxSize: nat,
                         start: Table, turns: Turns, i: nat, taken: nat, accepted: seq<Root>)
    requires |revs| == |contracts|
    reads store, contracts
  {
    && i <= |contracts| && taken <= |sectors|
    && AllSmall(contracts, revs, maxSize)
    && Took(start, store.sectors, h, IDs(contracts), sectors[..taken], accepted)
    && (Distinct(contracts) ==> NotYet(contracts, revs, i) && turns.Stand(i, taken, accepted))
  }

  // The i-th turn.
  method OneTurn(store: Store, h: HostKey, contracts: seq<PinContract>, ghost revs: seq<Revision>, sectors: seq<Root>, maxSize: nat,
                 answers: nat -> Answer, ghost start: Table, ghost turns: Turns, i: nat, taken: nat, ghost accepted: seq<Root>,
                 ghost first: bool, ghost room: (Revision, nat) -> bool, ghost p: Prices, ghost total: nat)
    returns (now: nat, broken: bool, ghost nowAccepted: seq<Root>)
    requires Started(contracts, revs, sectors, maxSize, h, start, answers, turns) && i < |contracts| && taken < |sectors|
    requires TellsRoom(room, maxSize, p)
    requires Before(store, h, contracts, revs, sectors, maxSize, start, turns, i, taken, accepted)
    requires FirstTook(contracts, first, i, taken, |sectors|, answers, room, p, total)
    modifies store, contracts[i]
    ensures !broken ==> Before(store, h, contracts, revs, sectors, maxSize, start, turns, i + 1, now, nowAccepted)
    ensures !broken ==> FirstTook(contracts, first, i + 1, now, |sectors|, answers, room, p, total)
    ensures broken ==> !first && now == taken && AllSmall(contracts, revs, maxSize) && Progress(start, store.sectors, h, IDs(contracts))
    ensures broken ==> TouchesOnly(start, store.sectors, h, IDs(contracts), sectors)
    ensures broken && Distinct(contracts) ==> turns.Broken(|turns.limits|)
  {
    var c := contracts[i];
    now, broken, nowAccepted := PinTurn(store, h, c, IDs(contracts), sectors, maxSize, answers(i), turns, revs, i, start, taken, accepted,
                                         room, p, total);
  }

  lemma LoopStarts(store: Store, h: HostKey, contracts: seq<PinContract>, revs: seq<Revision>, sectors: seq<Root>, maxSize: nat,
                   answers: nat -> Answer, turns: Turns)
    requires Started(contracts, revs, sectors, maxSize, h, store.sectors, answers, turns)
    requires NotYet(contracts, revs, 0) && AllSmall(contracts, revs, maxSize)
    ensures Before(store, h, contracts, revs, sectors, maxSize, store.sectors, turns, 0, 0, [])
  {
  }

  lemma LoopEnds(store: Store, h: HostKey, contracts: seq<PinContract>, revs: seq<Revision>, sectors: seq<Root>, maxSize: nat,
                 answers: nat -> Answer, start: Table, turns: Turns, i: nat, taken: nat, accepted: seq<Root>)
    requires Started(contracts, revs, sectors, maxSize, h, start, answers, turns)
    requires Before(store, h, contracts, revs, sectors, maxSize, start, turns, i, taken, accepted)
    requires i == |contracts| || taken == |sectors|
    ensures Progress(start, store.sectors, h, IDs(contracts))
    ensures taken == 0 ==> TouchesOnly(start, store.sectors, h, IDs(contracts), sectors)
    ensures Distinct(contracts) ==> turns.Ended(false, taken, accepted)
  {
    if Distinct(contracts) {
      turns.Finish(i, taken, accepted);
    }
    if taken == 0 {
      NothingTaken(start, store.sectors, h, IDs(contracts), accepted, sectors);
    }
    TookIsProgress(start, store.sectors, h, IDs(contracts), sectors[..taken], accepted);
  }

  // The loop over the contracts.
  method AllTurns(store: Store, h: HostKey, contracts: seq<PinContract>, sectors: seq<Root>, maxSize: nat, answers: nat -> Answer,
                  ghost turns: Turns, ghost revs: seq<Revision>,
                  ghost first: bool, ghost room: (Revision, nat) -> bool, ghost p: Prices, ghost total: nat)
    returns (taken: nat, broken: bool, ghost accepted: seq<Root>, ghost turned: nat)
    requires Started(contracts, revs, sectors, maxSize, h, store.sectors, answers, turns) && NotYet(contracts, revs, 0)
    requires AllSmall(contracts, revs, maxSize) && TellsRoom(room, maxSize, p)
    requires FirstTook(contracts, first, 0, 0, |sectors|, answers, room, p, total)
    modifies store, contracts
    ensures taken <= |sectors| && AllSmall(contracts, revs, maxSize) && Progress(old(store.sectors), store.sectors, h, IDs(contracts))
    ensures !broken ==> Took(old(store.sectors), store.sectors, h, IDs(contracts), sectors[..taken], accepted)
    ensures broken || taken == 0 ==> TouchesOnly(old(store.sectors), store.sectors, h, IDs(contracts), sectors)
    ensures sectors == [] ==> !broken
    ensures Distinct(contracts) ==> turns.Ended(broken, taken, accepted)
    ensures first ==> !broken && turned > 0
    ensures !broken ==> FirstTook(contracts, first, turned, taken, |sectors|, answers, room, p, total)
  {
    taken, broken, accepted, turned := 0, false, [], 0;
    ghost var start := store.sectors;
    LoopStarts(store, h, contracts, revs, sectors, maxSize, answers, turns);
    var i := 0;
    while i < |contracts| && taken < |sectors|
      invariant !broken && turned == i && Before(store, h, contracts, revs, sectors, maxSize, start, turns, i, taken, accepted)
      invariant FirstTook(contracts, first, i, taken, |sectors|, answers, room, p, total)
    {
      taken, broken, accepted := OneTurn(store, h, contracts, revs, sectors, maxSize, answers, start, turns, i, taken, accepted, first, room, p, total);
      if broken {
        return;
      }
      i, turned := i + 1, i + 1;
    }
    LoopEnds(store, h, contracts, revs, sectors, maxSize, answers, start, turns, i, taken, accepted);
  }

  // pinSectors: on success the sectors split into the accepted ones, which are pinned, other attempted
  // ones, which are lost, and an untouched rest; something was attempted. answers gives each contract's
  // turn. p and total only serve the last clause.
  method PinSectors(store: Store, h: HostKey, contracts: seq<PinContract>, sectors: seq<Root>, maxSize: nat,
                    batch: nat, answers: nat -> Answer, ghost p: Prices, ghost total: nat)
    returns (taken: nat, err: Option<PinError>, ghost accepted: seq<Root>)
    requires maxSize < TWO_64 && Distinct(sectors)
    requires forall c :: c in contracts ==> c.rev.Valid()
    requires forall r :: r in sectors ==> r in Unpinned(store.sectors, h)
    modifies store, contracts
    ensures forall c :: c in contracts ==> StaysSmall(c, maxSize)
    ensures taken <= |sectors|
    ensures err.None? ==> 0 < taken && Took(old(store.sectors), store.sectors, h, IDs(contracts), sectors[..taken], accepted)
    ensures err.Some? ==> TouchesOnly(old(store.sectors), store.sectors, h, IDs(contracts), sectors)
    ensures Progress(old(store.sectors), store.sectors, h, IDs(contracts))
    ensures |sectors| > batch ==> err == Some(TooManySectors)
    ensures sectors == [] ==> err == Some(AllContractsFailed)
    // every contract has its turn while sectors are left, and the outcome is what the turns come to
    ensures |sectors| <= batch && Distinct(contracts) ==>
      && Turns(Limits(old(Revs(contracts)), maxSize, answers), sectors, answers).Ended(err == Some(StoreError), taken, accepted)
      && (err.None? ==> taken > 0) && (err == Some(AllContractsFailed) ==> taken == 0) && err != Some(TooManySectors)
    ensures contracts != [] ==> FirstTakesAll(contracts, old(contracts[0].rev), sectors, maxSize, batch, answers, p, total) ==>
      err.None? && taken == |sectors| && Room(contracts[0].rev, maxSize, p, total - taken)
  {
    taken, accepted := 0, [];
    if |sectors| > batch {
      TouchesIsProgress(store.sectors, store.sectors, h, IDs(contracts), sectors);
      return 0, Some(TooManySectors), accepted;
    }
    ghost var revs := Revs(contracts);
    LimitsMatch(revs, maxSize, sectors, answers);
    ghost var first := contracts != [] && FirstTakesAll(contracts, contracts[0].rev, sectors, maxSize, batch, answers, p, total);
    var broken;
    ghost var room := (rev: Revision, n: nat) => Room(rev, maxSize, p, n);
    ghost var turned;
    taken, broken, accepted, turned := AllTurns(store, h, contracts, sectors, maxSize, answers,
                                        Turns(Limits(revs, maxSize, answers), sectors, answers), revs, first, room, p, total);
    assert forall c :: c in contracts ==> StaysSmall(c, maxSize);
    if broken {
      return taken, Some(StoreError), accepted;
    }
    if taken == 0 {
      return taken, Some(AllContractsFailed), accepted;
    }
    return taken, None, accepted;
  }

  // --- the host loop ---

  function Elements(roots: seq<Root>): set<Root> {
    set r | r in roots
  }

  lemma {:induction false} DistinctElements(roots: seq<Root>)
    requires Distinct(roots)
    ensures |Elements(roots)| == |roots|
  {
    if roots != [] {
      var n := |roots| - 1;
      DistinctElements(roots[..n]);
      assert roots == roots[..n] + [roots[n]];
      assert Elements(roots) == Elements(roots[..n]) + {roots[n]};
    }
  }

  // A successful round takes exactly its sectors out of the unpinned ones.
  lemma SuccessShrinks(start: Table, before: Table, after: Table, h: HostKey, ids: set<ContractID>, roots: seq<Root>, accepted: seq<Root>)
    requires Progress(start, before, h, ids) && Took(before, after, h, ids, roots, accepted)
    requires Distinct(roots) && forall r :: r in roots ==> r in Unpinned(before, h)
    ensures Progress(start, after, h, ids)
    ensures Unpinned(after, h) == Unpinned(before, h) - Elements(roots)
    ensures |Unpinned(after, h)| == |Unpinned(before, h)| - |roots|
  {
    forall r | r in start ensures RowProgress(start[r], after[r], h, ids) {
      assert RowProgress(start[r], before[r], h, ids);
      assert RowTook(before[r], after[r], r in roots, r in accepted, h, ids);
    }
    forall r | r in before ensures r in Unpinned(after, h) <==> r in Unpinned(before, h) && r !in roots {
      assert RowTook(before[r], after[r], r in roots, r in accepted, h, ids);
    }
    DistinctElements(roots);
    assert Unpinned(after, h) == Unpinned(before, h) - Elements(roots);
    assert Elements(roots) <= Unpinned(before, h);
  }

  lemma AtLeastUnit(d: int, b: int)
    requires d >= 1 && b > 0
    ensures d * b >= b
  {
    TimesGrows(1, d, b);
  }

  lemma MultipleBelow(d: int, b: int)
    requires b > 0 && -b < d * b < b
    ensures d == 0
  {
    if d >= 1 {
      AtLeastUnit(d, b);
    } else if d <= -1 {
      AtLeastUnit(-d, b);
      Negated(d, b);
    }
  }

  lemma Negated(d: int, b: int)
    ensures (-d) * b == -(d * b)
  {
  }

  lemma OneLess(q: int, b: int)
    ensures (q - 1) * b == q * b - b
  {
  }

  lemma Difference(q: int, s: int, b: int)
    ensures (q - s) * b == q * b - s * b
  {
  }

  lemma ModMinus(a: nat, b: nat)
    requires b > 0 && a >= b
    ensures (a - b) % b == a % b
  {
    var q, s := (a - b) / b, a / b;
    assert a == s * b + a % b && a - b == q * b + (a - b) % b;
    OneLess(s, b);
    Difference(q, s - 1, b);
    MultipleBelow(q - (s - 1), b);
  }

  // How the world answers the rounds of one host: whether the unpinned sectors can be fetched, whether the
  // context is cancelled before the round, and each contract's turn.
  datatype Round = Round(fetchOk: bool, cancelled: bool, answers: nat -> Answer)

  // Nothing fails and nothing is cancelled, at these prices.
  ghost predicate Quiet(world: nat -> Round, p: Prices) {
    forall k {:trigger world(k)} :: world(k).fetchOk && !world(k).cancelled && Undisturbed(world(k).answers(0), p)
  }

  // The first contract has room for everything that is unpinned, and nothing fails.
  ghost predicate SmoothSailing(contracts: seq<PinContract>, rev: Revision, maxSize: nat, world: nat -> Round, p: Prices, unpinned: nat) {
    contracts != [] && Quiet(world, p) && Room(rev, maxSize, p, unpinned)
  }

  // One round: at most a batch of unpinned sectors is handed to the contracts. With room and without
  // failures all of them are taken; an empty round is an error.
  method PinRound(store: Store, h: HostKey, contracts: seq<PinContract>, maxSize: nat, batch: nat, answers: nat -> Answer, ghost p: Prices)
    returns (fetched: nat, failed: bool)
    requires maxSize < TWO_64 && forall c :: c in contracts ==> c.rev.Valid()
    modifies store, contracts
    ensures forall c :: c in contracts ==> StaysSmall(c, maxSize)
    ensures fetched == Min(batch, |Unpinned(old(store.sectors), h)|)
    ensures fetched == 0 ==> failed && store.sectors == old(store.sectors)
    ensures Progress(old(store.sectors), store.sectors, h, IDs(contracts))
    ensures !failed ==> |Unpinned(store.sectors, h)| < |Unpinned(old(store.sectors), h)|
    ensures contracts != [] ==>
      var unpinned := |Unpinned(old(store.sectors), h)|;
      fetched > 0 && Undisturbed(answers(0), p) && Room(old(contracts[0].rev), maxSize, p, unpinned) ==>
        !failed && |Unpinned(store.sectors, h)| == unpinned - fetched && Room(contracts[0].rev, maxSize, p, unpinned - fetched)
  {
    var roots := store.UnpinnedSectors(h, batch);
    fetched := |roots|;
    ghost var before := store.sectors;
    var taken, err, accepted := PinSectors(store, h, contracts, roots, maxSize, batch, answers, p, |Unpinned(before, h)|);
    failed := err.Some?;
    if roots == [] {
      NothingTouched(before, store.sectors, h, IDs(contracts));
    } else if !failed {
      SuccessShrinks(before, before, store.sectors, h, IDs(contracts), roots[..taken], accepted);
    }
  }

  lemma NothingTouched(a: Table, b: Table, h: HostKey, ids: set<ContractID>)
    requires TouchesOnly(a, b, h, ids, [])
    ensures a == b
  {
    forall r | r in a ensures b[r] == a[r] {
      assert RowTouched(a[r], b[r], r in [], h, ids);
    }
  }

  // performSectorPinningOnHost, once the contracts are fetched. It terminates because each successful
  // round shrinks the unpinned set. p only serves the last clause.
  method PinOnHost(store: Store, h: HostKey, contracts: seq<PinContract>, maxSize: nat, batch: nat,
                   world: nat -> Round, ghost p: Prices)
    returns (failed: bool, rounds: nat)
    requires maxSize < TWO_64 && batch > 0
    requires forall c :: c in contracts ==> c.rev.Valid()
    modifies store, contracts
    ensures forall c :: c in contracts ==> StaysSmall(c, maxSize)
    // rows only move from unpinned on this host to pinned or lost, also when the call fails
    ensures Progress(old(store.sectors), store.sectors, h, IDs(contracts))
    ensures !failed ==> |Unpinned(store.sectors, h)| + rounds <= |Unpinned(old(store.sectors), h)|
    // the last round saw fewer than a batch, and there was something to pin
    ensures !failed ==> rounds > 0 && |Unpinned(store.sectors, h)| + 1 < batch
    ensures Unpinned(old(store.sectors), h) == {} ==> failed
    // with room and without failures everything gets pinned or lost, and yet the loop reports an error
    // exactly when the last batch was full: it then asks for one more, and the empty list is an error
    ensures contracts != [] ==>
      var unpinned := |Unpinned(old(store.sectors), h)|;
      SmoothSailing(contracts, old(contracts[0].rev), maxSize, world, p, unpinned) ==>
        Unpinned(store.sectors, h) == {} && (failed <==> unpinned % batch == 0)
  {
    failed, rounds := false, 0;
    ghost var unpinned := |Unpinned(store.sectors, h)|;
    ghost var smooth := contracts != [] && SmoothSailing(contracts, contracts[0].rev, maxSize, world, p, unpinned);
    var exhausted := false;
    while !exhausted && !world(rounds).cancelled
      invariant forall c :: c in contracts ==> StaysSmall(c, maxSize)
      invariant Progress(old(store.sectors), store.sectors, h, IDs(contracts))
      invariant |Unpinned(store.sectors, h)| + rounds <= unpinned
      invariant exhausted ==> rounds > 0 && |Unpinned(store.sectors, h)| + 1 < batch
      invariant smooth ==> Room(contracts[0].rev, maxSize, p, |Unpinned(store.sectors, h)|)
      invariant smooth && !exhausted ==> |Unpinned(store.sectors, h)| % batch == unpinned % batch
      invariant smooth && exhausted ==> |Unpinned(store.sectors, h)| == 0 && unpinned % batch != 0
      decreases |Unpinned(store.sectors, h)|
    {
      if !world(rounds).fetchOk {
        return true, rounds;
      }
      ghost var before := store.sectors;
      var fetched, roundFailed := PinRound(store, h, contracts, maxSize, batch, world(rounds).answers, p);
      exhausted := fetched < batch;
      BatchRemainder(|Unpinned(before, h)|, batch);
      ProgressTwice(old(store.sectors), before, store.sectors, h, IDs(contracts));
      if roundFailed {
        return true, rounds;
      }
      rounds := rounds + 1;
    }
    failed := world(rounds).cancelled;
  }

  lemma BatchRemainder(n: nat, batch: nat)
    requires batch > 0
    ensures if n < batch then n % batch == n else (n - batch) % batch == n % batch
  {
    if n >= batch {
      ModMinus(n, batch);
    }
  }

  // n unpinned sectors on host 1.
  function UnpinnedTable(n: nat): Table {
    if n == 0 then map[] else UnpinnedTable(n - 1)[n - 1 := Row(Some(1), None)]
  }

  lemma {:induction false} AllUnpinned(n: nat)
    ensures |Unpinned(UnpinnedTable(n), 1)| == n && forall r :: r in Unpinned(UnpinnedTable(n), 1) ==> r < n
  {
    if n > 0 {
      AllUnpinned(n - 1);
      assert Unpinned(UnpinnedTable(n), 1) == Unpinned(UnpinnedTable(n - 1), 1) + {n - 1};
    }
  }

  // As many unpinned sectors as the batch is large, whatever its size, as long as a contract can hold them:
  // all are handled, and the call fails.
  method FullBatchReportsError(batch: nat) returns (failed: bool, left: set<Root>)
    requires 0 < batch && batch * SECTOR_SIZE < TWO_64
    ensures failed && left == {}
  {
    var p := Prices(0, duration => Cost(1, 1));
    var store := new Store;
    store.sectors := UnpinnedTable(batch);
    var c := new PinContract(5, Revision(0, 0, 10, batch, batch));
    var world: nat -> Round := k => Round(true, false, i => Answer(Some(p), Some(j => true), true, true, true));
    AllUnpinned(batch);
    var rounds: nat;
    failed, rounds := PinOnHost(store, 1, [c], batch * SECTOR_SIZE, batch, world, p);
    left := Unpinned(store.sectors, 1);
  }
}
