// The contract index that follows the chain: apply and revert of contract diffs in
// contracts/chain.go, the updateTx map updates in persist/postgres/contracts.go, and the Sync loop
// of subscriber/subscriber.go.
//
// The elements of a block are contract contents; their Merkle proofs are not modelled. A chain is
// the sequence of its blocks, and that sequence also stands for the index of its tip.
module ChainIndex {
  import opened Common

  type ContractID = nat

  datatype Element = Element(id: ContractID, revision: nat)

  // Renewal(to) carries the ID that V2RenewalID derives for the renewed contract.
  datatype Resolution = Renewal(to: ContractID) | StorageProof | Expiration

  // One V2FileContractElementDiff: the element before the block (or the created one), and what the
  // block did to it.
  datatype Diff = Diff(element: Element, created: bool, revision: Option<Element>, resolution: Option<Resolution>)

  type Block = seq<Diff>
  type Chain = seq<Block>

  datatype ContractState = Pending | Active | Resolved | Expired | Rejected

  // The tables: contract_elements, and the state and renewed_to columns of contracts. A contract is
  // known when it has a row in contracts, and only known contracts can have an element row (a
  // foreign key).
  datatype DB = DB(elements: map<ContractID, Element>, state: map<ContractID, ContractState>, renewedTo: map<ContractID, Option<ContractID>>)

  // --- what a chain says about a contract, independently of any database ---

  datatype Life = Absent | Live(element: Element) | Closed

  function DiffFor(b: Block, id: ContractID): Option<Diff> {
    if b == [] then None
    else if b[|b| - 1].element.id == id then Some(b[|b| - 1])
    else DiffFor(b[..|b| - 1], id)
  }

  function LifeAfter(life: Life, d: Diff): Life {
    if d.created then Live(d.element)
    else if d.resolution.Some? then Closed
    else Live(if d.revision.Some? then d.revision.value else d.element)
  }

  // The contract's life after replaying the chain from its first block.
  function LifeOf(chain: Chain, id: ContractID): Life {
    if chain == [] then Absent
    else
      var before := LifeOf(chain[..|chain| - 1], id);
      match DiffFor(chain[|chain| - 1], id)
      case None => before
      case Some(d) => LifeAfter(before, d)
  }

  // A block touches a contract at most once, creates only absent ones, and revises or resolves the
  // element that is live before it.
  ghost predicate ValidBlock(chain: Chain, b: Block) {
    && (forall i, j :: 0 <= i < j < |b| ==> b[i].element.id != b[j].element.id)
    && (forall d :: d in b ==> ValidDiff(LifeOf(chain, d.element.id), d))
  }

  ghost predicate ValidDiff(before: Life, d: Diff) {
    && (d.created ==> before == Absent && d.revision.None? && d.resolution.None?)
    && (!d.created ==> before == Live(d.element))
    && (d.revision.Some? ==> d.revision.value.id == d.element.id)
  }

  ghost predicate ValidAt(chain: Chain, n: nat)
    requires n < |chain|
  {
    ValidBlock(chain[..n], chain[n])
  }

  ghost predicate ValidChain(chain: Chain) {
    forall n: nat {:trigger ValidAt(chain, n)} :: n < |chain| ==> ValidAt(chain, n)
  }

  // --- what the manager does with a block ---

  // The element a diff leaves in the table when its block is applied or reverted, if any.
  function TargetElement(d: Diff, forward: bool): Option<Element> {
    if !forward then (if d.created then None else Some(d.element))
    else if d.created then Some(d.element)
    else if d.resolution.Some? then None
    else if d.revision.Some? then d.revision else Some(d.element)
  }

  // The state a diff sets, if any.
  function TargetState(d: Diff, forward: bool): Option<ContractState> {
    if d.created then Some(if forward then Active else Pending)
    else if d.resolution.Some? then Some(if forward then Resolved else Active)
    else None
  }

  // The renewed_to value a diff sets, if any; a renewal to an unknown contract is not recorded.
  function TargetRenewed(known: set<ContractID>, d: Diff, forward: bool): Option<Option<ContractID>> {
    if d.created || d.resolution.None? || !d.resolution.value.Renewal? then None
    else if !forward then Some(None)
    else if d.resolution.value.to in known then Some(Some(d.resolution.value.to))
    else None
  }

  function Upserts(known: set<ContractID>, b: Block, forward: bool): map<ContractID, Element> {
    if b == [] then map[]
    else
      var d := b[|b| - 1];
      var rest := Upserts(known, b[..|b| - 1], forward);
      if d.element.id in known && TargetElement(d, forward).Some?
      then rest[TargetElement(d, forward).value.id := TargetElement(d, forward).value] else rest
  }

  function Deletes(known: set<ContractID>, b: Block, forward: bool): set<ContractID> {
    if b == [] then {}
    else
      var d := b[|b| - 1];
      Deletes(known, b[..|b| - 1], forward) + (if d.element.id in known && TargetElement(d, forward).None? then {d.element.id} else {})
  }

  function States(state: map<ContractID, ContractState>, b: Block, forward: bool): map<ContractID, ContractState> {
    if b == [] then state
    else
      var d := b[|b| - 1];
      var rest := States(state, b[..|b| - 1], forward);
      if d.element.id in state && TargetState(d, forward).Some? then rest[d.element.id := TargetState(d, forward).value] else rest
  }

  function Renewals(known: set<ContractID>, renewedTo: map<ContractID, Option<ContractID>>, b: Block, forward: bool): map<ContractID, Option<ContractID>> {
    if b == [] then renewedTo
    else
      var d := b[|b| - 1];
      var rest := Renewals(known, renewedTo, b[..|b| - 1], forward);
      if d.element.id in known && TargetRenewed(known, d, forward).Some? then rest[d.element.id := TargetRenewed(known, d, forward).value] else rest
  }

  // The tables after a block: applying writes before it deletes, reverting deletes first.
  function Moved(db: DB, b: Block, forward: bool): DB {
    var known := db.state.Keys;
    var ups, dels := Upserts(known, b, forward), Deletes(known, b, forward);
    DB(if forward then (db.elements + ups) - dels else (db.elements - dels) + ups,
       States(db.state, b, forward),
       Renewals(known, db.renewedTo, b, forward))
  }

  // --- pointwise reading of Moved on a block that touches each contract once ---

  ghost predicate Distinct(b: Block) {
    && (forall i, j :: 0 <= i < j < |b| ==> b[i].element.id != b[j].element.id)
    && (forall d :: d in b && d.revision.Some? ==> d.revision.value.id == d.element.id)
  }

  lemma {:induction false} DiffForIsMember(b: Block, id: ContractID)
    ensures DiffFor(b, id).Some? ==> DiffFor(b, id).value in b && DiffFor(b, id).value.element.id == id
    ensures DiffFor(b, id).None? ==> forall d :: d in b ==> d.element.id != id
  {
    if b != [] {
      DiffForIsMember(b[..|b| - 1], id);
      assert b == b[..|b| - 1] + [b[|b| - 1]];
    }
  }

  lemma LastIsOnly(b: Block)
    requires Distinct(b) && b != []
    ensures DiffFor(b[..|b| - 1], b[|b| - 1].element.id).None?
  {
    var init, id := b[..|b| - 1], b[|b| - 1].element.id;
    DiffForIsMember(init, id);
    forall d | d in init ensures d.element.id != id {
      var i :| 0 <= i < |init| && init[i] == d;
      assert b[i] == d;
    }
  }

  lemma {:induction false} MovedKeepsKnown(state: map<ContractID, ContractState>, b: Block, forward: bool)
    ensures States(state, b, forward).Keys == state.Keys
  {
    if b != [] {
      MovedKeepsKnown(state, b[..|b| - 1], forward);
    }
  }

  lemma {:induction false} UpsertsAt(known: set<ContractID>, b: Block, forward: bool, id: ContractID)
    requires Distinct(b)
    ensures id in Upserts(known, b, forward) <==> id in known && DiffFor(b, id).Some? && TargetElement(DiffFor(b, id).value, forward).Some?
    ensures id in Upserts(known, b, forward) ==> Upserts(known, b, forward)[id] == TargetElement(DiffFor(b, id).value, forward).value
    ensures id in Deletes(known, b, forward) <==> id in known && DiffFor(b, id).Some? && TargetElement(DiffFor(b, id).value, forward).None?
  {
    if b != [] {
      var init, d := b[..|b| - 1], b[|b| - 1];
      UpsertsAt(known, init, forward, id);
      LastIsOnly(b);
      assert TargetElement(d, forward).Some? ==> TargetElement(d, forward).value.id == d.element.id;
    }
  }

  lemma {:induction false} ColumnsAt(db: DB, b: Block, forward: bool, id: ContractID)
    requires Distinct(b) && id in db.state
    ensures var d := DiffFor(b, id);
            States(db.state, b, forward).Keys == db.state.Keys
            && States(db.state, b, forward)[id] == if d.Some? && TargetState(d.value, forward).Some? then TargetState(d.value, forward).value else db.state[id]
    ensures var d := DiffFor(b, id); var known := db.state.Keys; var r := Renewals(known, db.renewedTo, b, forward);
            if d.Some? && TargetRenewed(known, d.value, forward).Some? then id in r && r[id] == TargetRenewed(known, d.value, forward).value
            else (id in r <==> id in db.renewedTo) && (id in r ==> r[id] == db.renewedTo[id])
  {
    MovedKeepsKnown(db.state, b, forward);
    if b != [] {
      var init, d := b[..|b| - 1], b[|b| - 1];
      ColumnsAt(db, init, forward, id);
      LastIsOnly(b);
    }
  }

  // --- the index agrees with the chain ---

  ghost predicate ElementAgrees(db: DB, chain: Chain, id: ContractID) {
    var life := LifeOf(chain, id);
    if id in db.state && life.Live? then id in db.elements && db.elements[id] == life.element else id !in db.elements
  }

  ghost predicate StateAgrees(db: DB, chain: Chain, id: ContractID) {
    id in db.state ==>
      && (LifeOf(chain, id).Live? ==> db.state[id] == Active)
      && (LifeOf(chain, id).Closed? ==> db.state[id] == Resolved)
  }

  // The rows of a contract that exists on the chain are those of a replay.
  ghost predicate RowsAgree(db: DB, chain: Chain, id: ContractID) {
    && StateAgrees(db, chain, id)
    && (LifeOf(chain, id) != Absent ==> ElementAgrees(db, chain, id))
    && (id in db.elements ==> id in db.state)
  }

  ghost predicate AgreesOnChain(db: DB, chain: Chain) {
    forall id {:trigger RowsAgree(db, chain, id)} :: RowsAgree(db, chain, id)
  }

  // An element of a contract that the chain never created.
  ghost predicate Stale(db: DB, chain: Chain, id: ContractID) {
    id in db.elements && LifeOf(chain, id) == Absent
  }

  ghost predicate Agrees(db: DB, chain: Chain) {
    AgreesOnChain(db, chain) && forall id :: !Stale(db, chain, id)
  }

  lemma PrefixLife(chain: Chain, b: Block, id: ContractID)
    ensures LifeOf(chain + [b], id) == if DiffFor(b, id).None? then LifeOf(chain, id) else LifeAfter(LifeOf(chain, id), DiffFor(b, id).value)
  {
    assert (chain + [b])[..|chain|] == chain;
  }

  lemma ValidBlockIsDistinct(chain: Chain, b: Block)
    requires ValidBlock(chain, b)
    ensures Distinct(b)
  {
    forall d | d in b && d.revision.Some? ensures d.revision.value.id == d.element.id {
      assert ValidDiff(LifeOf(chain, d.element.id), d);
    }
  }

  lemma ApplyAt(db: DB, chain: Chain, b: Block, id: ContractID)
    requires ValidBlock(chain, b) && RowsAgree(db, chain, id)
    ensures RowsAgree(Moved(db, b, true), chain + [b], id)
    ensures Stale(Moved(db, b, true), chain + [b], id) ==> Stale(db, chain, id)
  {
    ValidBlockIsDistinct(chain, b);
    DiffForIsMember(b, id);
    PrefixLife(chain, b, id);
    UpsertsAt(db.state.Keys, b, true, id);
    MovedKeepsKnown(db.state, b, true);
    if id in db.state {
      ColumnsAt(db, b, true, id);
    }
    if DiffFor(b, id).Some? {
      assert ValidDiff(LifeOf(chain, id), DiffFor(b, id).value);
    }
  }

  lemma RevertAt(db: DB, chain: Chain, b: Block, id: ContractID)
    requires ValidBlock(chain, b) && RowsAgree(db, chain + [b], id)
    ensures RowsAgree(Moved(db, b, false), chain, id)
    ensures Stale(Moved(db, b, false), chain, id) ==> Stale(db, chain + [b], id)
  {
    ValidBlockIsDistinct(chain, b);
    DiffForIsMember(b, id);
    PrefixLife(chain, b, id);
    UpsertsAt(db.state.Keys, b, false, id);
    MovedKeepsKnown(db.state, b, false);
    if id in db.state {
      ColumnsAt(db, b, false, id);
    }
    if DiffFor(b, id).Some? {
      assert ValidDiff(LifeOf(chain, id), DiffFor(b, id).value);
    }
  }

  // Applying the next block of a valid chain keeps the index in step, and leaves no new stale row.
  lemma ApplyKeepsAgreement(db: DB, chain: Chain, b: Block)
    requires ValidBlock(chain, b) && AgreesOnChain(db, chain)
    ensures AgreesOnChain(Moved(db, b, true), chain + [b])
    ensures forall id :: Stale(Moved(db, b, true), chain + [b], id) ==> Stale(db, chain, id)
  {
    forall id ensures RowsAgree(Moved(db, b, true), chain + [b], id)
              ensures Stale(Moved(db, b, true), chain + [b], id) ==> Stale(db, chain, id) {
      assert RowsAgree(db, chain, id);
      ApplyAt(db, chain, b, id);
    }
  }

  // So does reverting the tip.
  lemma RevertKeepsAgreement(db: DB, chain: Chain, b: Block)
    requires ValidBlock(chain, b) && AgreesOnChain(db, chain + [b])
    ensures AgreesOnChain(Moved(db, b, false), chain)
    ensures forall id :: Stale(Moved(db, b, false), chain, id) ==> Stale(db, chain + [b], id)
  {
    forall id ensures RowsAgree(Moved(db, b, false), chain, id)
              ensures Stale(Moved(db, b, false), chain, id) ==> Stale(db, chain + [b], id) {
      assert RowsAgree(db, chain + [b], id);
      RevertAt(db, chain, b, id);
    }
  }

  // Two databases that agree with the same chain and know the same contracts have the same element
  // table, whatever reorgs each of them went through; in particular one replayed from scratch.
  lemma AgreementIsReplay(db: DB, replayed: DB, chain: Chain)
    requires Agrees(db, chain) && Agrees(replayed, chain) && db.state.Keys == replayed.state.Keys
    ensures db.elements == replayed.elements
    ensures forall id :: id in db.state && LifeOf(chain, id) != Absent ==> db.state[id] == replayed.state[id]
  {
    forall id ensures id in db.elements <==> id in replayed.elements
              ensures id in db.elements ==> db.elements[id] == replayed.elements[id]
              ensures id in db.state && LifeOf(chain, id) != Absent ==> db.state[id] == replayed.state[id] {
      assert RowsAgree(db, chain, id) && RowsAgree(replayed, chain, id);
      assert !Stale(db, chain, id) && !Stale(replayed, chain, id);
    }
  }

  // A chain reset keeps the element rows, so afterwards the table equals a replay exactly when no row
  // belongs to a contract that the chain never created.
  lemma ReplayIffNothingStale(db: DB, replayed: DB, chain: Chain)
    requires AgreesOnChain(db, chain) && Agrees(replayed, chain) && db.state.Keys == replayed.state.Keys
    ensures db.elements == replayed.elements <==> forall id :: !Stale(db, chain, id)
  {
    if forall id :: !Stale(db, chain, id) {
      AgreementIsReplay(db, replayed, chain);
    }
    if db.elements == replayed.elements {
      forall id ensures !Stale(db, chain, id) {
        assert !Stale(replayed, chain, id);
      }
    }
  }

  // Resetting the scanned index leaves agreement on the empty chain, with every row stale.
  lemma ResetAgreesOnChain(db: DB)
    requires forall id :: id in db.elements ==> id in db.state
    ensures AgreesOnChain(db, [])
    ensures forall id :: Stale(db, [], id) <==> id in db.elements
  {
  }

  // Reverting the block just applied restores a contract's renewed_to exactly when the block did not
  // renew the contract or the column was empty before: reverts clear it instead of restoring it.
  lemma RenewedToSurvivesRevertIff(db: DB, b: Block, id: ContractID)
    requires Distinct(b) && id in db.state && id in db.renewedTo
    ensures var back := Moved(Moved(db, b, true), b, false); var d := DiffFor(b, id);
            id in back.renewedTo
            && (back.renewedTo[id] == db.renewedTo[id]
                <==> !(d.Some? && !d.value.created && d.value.resolution.Some? && d.value.resolution.value.Renewal?) || db.renewedTo[id] == None)
  {
    var mid := Moved(db, b, true);
    MovedKeepsKnown(db.state, b, true);
    ColumnsAt(db, b, true, id);
    ColumnsAt(mid, b, false, id);
  }

  // --- batches ---

  function MovedAll(db: DB, blocks: seq<Block>, forward: bool): DB {
    if blocks == [] then db else Moved(MovedAll(db, blocks[..|blocks| - 1], forward), blocks[|blocks| - 1], forward)
  }

  // The last r blocks of a chain, tip first.
  function TipFirst(chain: Chain, r: nat): (blocks: seq<Block>)
    requires r <= |chain|
    ensures |blocks| == r
  {
    seq(r, i requires 0 <= i < r => chain[|chain| - 1 - i])
  }

  // Nothing the batch did made a new stale row.
  ghost predicate NoNewStale(before: DB, oldChain: Chain, after: DB, newChain: Chain) {
    forall id {:trigger Stale(after, newChain, id)} :: Stale(after, newChain, id) ==> Stale(before, oldChain, id)
  }

  lemma {:induction false} RevertBatch(db: DB, chain: Chain, r: nat)
    requires ValidChain(chain) && AgreesOnChain(db, chain) && r <= |chain|
    ensures AgreesOnChain(MovedAll(db, TipFirst(chain, r), false), chain[..|chain| - r])
    ensures NoNewStale(db, chain, MovedAll(db, TipFirst(chain, r), false), chain[..|chain| - r])
  {
    if r == 0 {
      assert chain[..|chain|] == chain;
    } else {
      RevertBatch(db, chain, r - 1);
      var mid := MovedAll(db, TipFirst(chain, r - 1), false);
      assert TipFirst(chain, r)[..r - 1] == TipFirst(chain, r - 1);
      var n := |chain| - r;
      assert chain[..n + 1] == chain[..n] + [chain[n]] && ValidAt(chain, n);
      RevertKeepsAgreement(mid, chain[..n], chain[n]);
    }
  }

  lemma {:induction false} ApplyBatch(db: DB, chain: Chain, from: nat, a: nat)
    requires ValidChain(chain) && from + a <= |chain| && AgreesOnChain(db, chain[..from])
    ensures AgreesOnChain(MovedAll(db, chain[from..from + a], true), chain[..from + a])
    ensures NoNewStale(db, chain[..from], MovedAll(db, chain[from..from + a], true), chain[..from + a])
  {
    if a > 0 {
      ApplyBatch(db, chain, from, a - 1);
      assert chain[from..from + a][..a - 1] == chain[from..from + a - 1];
      assert chain[..from + a] == chain[..from + a - 1] + [chain[from + a - 1]] && ValidAt(chain, from + a - 1);
      ApplyKeepsAgreement(MovedAll(db, chain[from..from + a - 1], true), chain[..from + a - 1], chain[from + a - 1]);
    }
  }

  function CommonPrefix(a: Chain, b: Chain): (p: nat)
    ensures p <= |a| && p <= |b| && a[..p] == b[..p]
    ensures p < |a| && p < |b| ==> a[p] != b[p]
  {
    if a == [] || b == [] || a[0] != b[0] then 0
    else
      var p := CommonPrefix(a[1..], b[1..]);
      assert a[..p + 1] == [a[0]] + a[1..][..p] && b[..p + 1] == [b[0]] + b[1..][..p];
      p + 1
  }
}

// The transaction and the subscriber that drive the index.
module ChainSync {
  import opened Common
  import opened ChainIndex

  function ToMap(fces: seq<Element>): map<ContractID, Element> {
    if fces == [] then map[] else ToMap(fces[..|fces| - 1])[fces[|fces| - 1].id := fces[|fces| - 1]]
  }

  function ToSet(ids: seq<ContractID>): set<ContractID> {
    set i | 0 <= i < |ids| :: ids[i]
  }

  lemma ToSetAppend(ids: seq<ContractID>, id: ContractID)
    ensures ToSet(ids + [id]) == ToSet(ids) + {id}
  {
    forall x | x in ToSet(ids) ensures x in ToSet(ids + [id]) {
      var i :| 0 <= i < |ids| && ids[i] == x;
      assert (ids + [id])[i] == x;
    }
    assert (ids + [id])[|ids|] == id;
  }

  class UpdateTx {
    var elements: map<ContractID, Element>
    var state: map<ContractID, ContractState>
    var renewedTo: map<ContractID, Option<ContractID>>
    var knownContracts: map<ContractID, bool>

    function View(): DB
      reads this
    {
      DB(elements, state, renewedTo)
    }

    // The cache only holds correct answers.
    ghost predicate Valid()
      reads this
    {
      forall id :: id in knownContracts ==> (knownContracts[id] <==> id in state)
    }

    constructor (db: DB)
      ensures Valid() && View() == db
    {
      elements, state, renewedTo := db.elements, db.state, db.renewedTo;
      knownContracts := map[];
    }

    method IsKnownContract(id: ContractID) returns (known: bool)
      requires Valid()
      modifies this`knownContracts
      ensures Valid() && (known <==> id in state)
    {
      if id in knownContracts {
        return knownContracts[id];
      }
      known := id in state;
      knownContracts := knownContracts[id := known];
    }

    method UpdateContractElements(fces: seq<Element>)
      modifies this`elements
      ensures elements == old(elements) + ToMap(fces)
    {
      for i := 0 to |fces|
        invariant elements == old(elements) + ToMap(fces[..i])
      {
        assert fces[..i + 1][..i] == fces[..i];
        elements := elements[fces[i].id := fces[i]];
      }
      assert fces[..|fces|] == fces;
    }

    method DeleteContractElements(ids: seq<ContractID>)
      modifies this`elements
      ensures elements == old(elements) - ToSet(ids)
    {
      for i := 0 to |ids|
        invariant elements == old(elements) - ToSet(ids[..i])
      {
        assert ids[..i + 1] == ids[..i] + [ids[i]];
        ToSetAppend(ids[..i], ids[i]);
        elements := elements - {ids[i]};
      }
      assert ids[..|ids|] == ids;
    }

    method UpdateContractState(id: ContractID, s: ContractState)
      requires Valid()
      modifies this`state
      ensures Valid() && state == if id in old(state) then old(state)[id := s] else old(state)
    {
      if id in state {
        state := state[id := s];
      }
    }

    // A renewal to a contract without a row is not recorded.
    method UpdateContractRenewedTo(id: ContractID, to: Option<ContractID>)
      modifies this`renewedTo
      ensures renewedTo == if to.Some? && to.value !in state then old(renewedTo) else old(renewedTo)[id := to]
    {
      if to.Some? && to.value !in state {
        return;
      }
      renewedTo := renewedTo[id := to];
    }

    method ApplyV2ContractDiffs(diffs: Block)
      requires Valid()
      modifies this
      ensures Valid() && View() == Moved(old(View()), diffs, true)
    {
      var updated: seq<Element>, resolved: seq<ContractID> := [], [];
      ghost var known := state.Keys;
      for i := 0 to |diffs|
        invariant Valid() && state.Keys == known && elements == old(elements)
        invariant state == States(old(state), diffs[..i], true)
        invariant renewedTo == Renewals(known, old(renewedTo), diffs[..i], true)
        invariant ToMap(updated) == Upserts(known, diffs[..i], true)
        invariant ToSet(resolved) == Deletes(known, diffs[..i], true)
      {
        var diff := diffs[i];
        assert diffs[..i + 1][..i] == diffs[..i];
        var isKnown := IsKnownContract(diff.element.id);
        if !isKnown {
          continue;
        }
        if diff.created {
          UpdateContractState(diff.element.id, Active);
          assert (updated + [diff.element])[..|updated|] == updated;
          updated := updated + [diff.element];
        } else if diff.resolution.Some? {
          UpdateContractState(diff.element.id, Resolved);
          if diff.resolution.value.Renewal? {
            UpdateContractRenewedTo(diff.element.id, Some(diff.resolution.value.to));
          }
          ToSetAppend(resolved, diff.element.id);
          resolved := resolved + [diff.element.id];
        } else {
          var fce := if diff.revision.Some? then diff.revision.value else diff.element;
          assert (updated + [fce])[..|updated|] == updated;
          updated := updated + [fce];
        }
      }
      assert diffs[..|diffs|] == diffs;
      UpdateContractElements(updated);
      DeleteContractElements(resolved);
    }

    method RevertV2ContractDiffs(diffs: Block)
      requires Valid()
      modifies this
      ensures Valid() && View() == Moved(old(View()), diffs, false)
    {
      var updated: seq<Element>, reverted: seq<ContractID> := [], [];
      ghost var known := state.Keys;
      for i := 0 to |diffs|
        invariant Valid() && state.Keys == known && elements == old(elements)
        invariant state == States(old(state), diffs[..i], false)
        invariant renewedTo == Renewals(known, old(renewedTo), diffs[..i], false)
        invariant ToMap(updated) == Upserts(known, diffs[..i], false)
        invariant ToSet(reverted) == Deletes(known, diffs[..i], false)
      {
        var diff := diffs[i];
        assert diffs[..i + 1][..i] == diffs[..i];
        var isKnown := IsKnownContract(diff.element.id);
        if !isKnown {
          continue;
        }
        if diff.created {
          ToSetAppend(reverted, diff.element.id);
          reverted := reverted + [diff.element.id];
          UpdateContractState(diff.element.id, Pending);
        } else {
          assert (updated + [diff.element])[..|updated|] == updated;
          updated := updated + [diff.element];
          if diff.resolution.Some? {
            UpdateContractState(diff.element.id, Active);
            if diff.resolution.value.Renewal? {
              UpdateContractRenewedTo(diff.element.id, None);
            }
          }
        }
      }
      assert diffs[..|diffs|] == diffs;
      DeleteContractElements(reverted);
      UpdateContractElements(updated);
    }

    // UpdateChainState: the reverted blocks tip first, then the applied ones.
    method UpdateChainState(reverted: seq<Block>, applied: seq<Block>)
      requires Valid()
      modifies this
      ensures Valid() && View() == MovedAll(MovedAll(old(View()), reverted, false), applied, true)
    {
      for i := 0 to |reverted|
        invariant Valid() && View() == MovedAll(old(View()), reverted[..i], false)
      {
        assert reverted[..i + 1][..i] == reverted[..i];
        RevertV2ContractDiffs(reverted[i]);
      }
      assert reverted[..|reverted|] == reverted;
      ghost var mid := View();
      for i := 0 to |applied|
        invariant Valid() && View() == MovedAll(mid, applied[..i], true)
      {
        assert applied[..i + 1][..i] == applied[..i];
        ApplyV2ContractDiffs(applied[i]);
      }
      assert applied[..|applied|] == applied;
    }
  }

  // What the environment does in one round of the Sync loop: the manager's tip, whether it can
  // still serve updates from the stored index, and whether the database transaction commits.
  datatype Round = Round(tip: Chain, served: bool, committed: bool)

  datatype SyncResult = Synced | Cancelled | TooManyResets | TransactionFailed

  // How many blocks lie between two chains: those to revert and those to apply.
  function Distance(a: Chain, b: Chain): nat {
    |a| + |b| - 2 * CommonPrefix(a, b)
  }

  // The manager keeps its tip, serves every request, and every transaction commits.
  ghost predicate Steady(rounds: seq<Round>) {
    forall i :: 0 <= i < |rounds| ==> rounds[i] == Round(rounds[0].tip, true, true)
  }

  lemma CommonPrefixIs(a: Chain, b: Chain, p: nat)
    requires p <= |a| && p <= |b| && a[..p] == b[..p]
    requires p == |a| || p == |b| || a[p] != b[p]
    ensures CommonPrefix(a, b) == p
  {
    var q := CommonPrefix(a, b);
    if q < p {
      EqualBelow(a, b, p, q);
    } else if q > p {
      EqualBelow(a, b, q, p);
    }
  }

  lemma EqualBelow(a: Chain, b: Chain, n: nat, i: nat)
    requires i < n <= |a| && n <= |b| && a[..n] == b[..n]
    ensures a[i] == b[i]
  {
    assert a[i] == a[..n][i] == b[..n][i] == b[i];
  }

  // Moving r blocks back and then a forward, never past the common prefix, brings a chain that much
  // closer to the tip.
  lemma BatchGetsCloser(index: Chain, tip: Chain, r: nat, a: nat)
    requires var p := CommonPrefix(index, tip); r <= |index| - p && p + a <= |tip| && (a > 0 ==> r == |index| - p)
    ensures var kept := index[..|index| - r];
      Distance(kept + (if a > 0 then tip[|kept|..|kept| + a] else []), tip) + r + a == Distance(index, tip)
  {
    var p := CommonPrefix(index, tip);
    var kept := index[..|index| - r];
    if a > 0 {
      assert kept + tip[|kept|..|kept| + a] == tip[..p + a];
      CommonPrefixIs(tip[..p + a], tip, p + a);
    } else {
      assert kept + [] == kept && kept[..p] == index[..p];
      CommonPrefixIs(kept, tip, p);
    }
  }

  class Subscriber {
    var db: DB
    var index: Chain // last scanned index
    const updateBatchSize: nat

    constructor (db: DB, index: Chain, updateBatchSize: nat)
      ensures this.db == db && this.index == index && this.updateBatchSize == updateBatchSize
    {
      this.db, this.index, this.updateBatchSize := db, index, updateBatchSize;
    }

    // UpdatesSince: at most updateBatchSize steps from index towards tip, reverts first.
    function UpdatesSince(tip: Chain): (u: (nat, nat))
      reads this
      ensures var p := CommonPrefix(index, tip);
              u.0 <= |index| - p && p + u.1 <= |tip| && (u.1 > 0 ==> u.0 == |index| - p) && u.0 + u.1 <= updateBatchSize
      ensures updateBatchSize > 0 && index != tip ==> u.0 + u.1 > 0
    {
      var p := CommonPrefix(index, tip);
      assert p == |index| && p == |tip| ==> index == tip;
      var r := Min(|index| - p, updateBatchSize);
      var a := if r == |index| - p then Min(|tip| - p, updateBatchSize - r) else 0;
      (r, a)
    }

    // One transaction: tables and index move together or not at all.
    method Commit(tip: Chain, committed: bool)
      requires ValidChain(index) && ValidChain(tip) && AgreesOnChain(db, index)
      modifies this
      ensures !committed ==> db == old(db) && index == old(index)
      ensures committed ==>
        var (r, a) := old(UpdatesSince(tip));
        var kept := old(index)[..|old(index)| - r];
        var applied := if a > 0 then tip[|kept|..|kept| + a] else [];
        index == kept + applied && db == MovedAll(MovedAll(old(db), TipFirst(old(index), r), false), applied, true)
      ensures ValidChain(index) && AgreesOnChain(db, index) && db.state.Keys == old(db.state.Keys)
      ensures NoNewStale(old(db), old(index), db, index)
    {
      var (r, a) := UpdatesSince(tip);
      var kept := index[..|index| - r];
      var reverted := TipFirst(index, r);
      var applied := if a > 0 then tip[|kept|..|kept| + a] else [];
      var tx := new UpdateTx(db);
      tx.UpdateChainState(reverted, applied);
      ghost var mid := MovedAll(db, reverted, false);
      RevertPart(db, index, r);
      if a > 0 {
        ApplyPart(mid, kept, tip, a);
        NoNewStaleTransitive(db, index, mid, kept, tx.View(), kept + applied);
      } else {
        assert kept + applied == kept;
      }
      if committed {
        db := tx.View();
        index := kept + applied;
      }
    }

    // A batch that commits brings the index closer to the tip.
    method Advance(tip: Chain, committed: bool)
      requires updateBatchSize > 0 && index != tip
      requires ValidChain(index) && ValidChain(tip) && AgreesOnChain(db, index)
      modifies this
      ensures if committed then Distance(index, tip) < Distance(old(index), tip) else db == old(db) && index == old(index)
      ensures ValidChain(index) && AgreesOnChain(db, index) && db.state.Keys == old(db.state.Keys)
      ensures NoNewStale(old(db), old(index), db, index)
    {
      ghost var u := UpdatesSince(tip);
      BatchGetsCloser(index, tip, u.0, u.1);
      Commit(tip, committed);
    }

    // Sync: loop until the stored index is the tip. Whatever the environment does, the index and the
    // tables stay in step; without a reset full agreement is kept.
    method Sync(rounds: seq<Round>) returns (res: SyncResult, resets: nat)
      requires updateBatchSize > 0 && ValidChain(index) && AgreesOnChain(db, index)
      requires forall r :: r in rounds ==> ValidChain(r.tip)
      modifies this
      ensures ValidChain(index) && AgreesOnChain(db, index) && db.state.Keys == old(db.state.Keys)
      ensures resets == 0 ==> NoNewStale(old(db), old(index), db, index)
      ensures resets == 0 && Agrees(old(db), old(index)) ==> Agrees(db, index)
      ensures res == Synced ==> exists r :: r in rounds && index == r.tip
      ensures resets <= 3 && (res == TooManyResets ==> resets == 3)
      // undisturbed, the loop gets there: every round brings the index closer to the tip
      ensures Steady(rounds) && |rounds| > 0 && |rounds| > Distance(old(index), rounds[0].tip) ==>
        res == Synced && index == rounds[0].tip
    {
      var resetAttempts := 0;
      resets := 0;
      for i := 0 to |rounds|
        invariant ValidChain(index) && AgreesOnChain(db, index) && db.state.Keys == old(db.state.Keys)
        invariant resets == 0 ==> NoNewStale(old(db), old(index), db, index)
        invariant resets == resetAttempts <= 3
        invariant Steady(rounds) && |rounds| > 0 ==> Distance(index, rounds[0].tip) + i <= Distance(old(index), rounds[0].tip)
      {
        var round := rounds[i];
        if index == round.tip {
          return Synced, resets;
        }
        if !round.served {
          resetAttempts := resetAttempts + 1;
          if resetAttempts > 3 {
            return TooManyResets, resets;
          }
          forall id | id in db.elements ensures id in db.state {
            assert RowsAgree(db, index, id);
          }
          index := [];
          resets := resets + 1;
          ResetAgreesOnChain(db);
          continue;
        }
        Advance(round.tip, round.committed);
        if !round.committed {
          return TransactionFailed, resets;
        }
      }
      res := Cancelled;
    }
  }

  lemma RevertPart(db: DB, index: Chain, r: nat)
    requires ValidChain(index) && AgreesOnChain(db, index) && r <= |index|
    ensures var kept := index[..|index| - r]; var mid := MovedAll(db, TipFirst(index, r), false);
            ValidChain(kept) && AgreesOnChain(mid, kept) && NoNewStale(db, index, mid, kept) && mid.state.Keys == db.state.Keys
  {
    RevertBatch(db, index, r);
    KnownAfter(db, TipFirst(index, r), false);
    PrefixIsValid(index, |index| - r);
  }

  lemma ApplyPart(mid: DB, kept: Chain, tip: Chain, a: nat)
    requires ValidChain(tip) && |kept| + a <= |tip| && kept == tip[..|kept|] && AgreesOnChain(mid, kept)
    ensures var applied := tip[|kept|..|kept| + a]; var after := MovedAll(mid, applied, true);
            && ValidChain(kept + applied) && AgreesOnChain(after, kept + applied)
            && NoNewStale(mid, kept, after, kept + applied) && after.state.Keys == mid.state.Keys
  {
    ApplyBatch(mid, tip, |kept|, a);
    KnownAfter(mid, tip[|kept|..|kept| + a], true);
    assert kept + tip[|kept|..|kept| + a] == tip[..|kept| + a];
    PrefixIsValid(tip, |kept| + a);
  }

  lemma NoNewStaleTransitive(a: DB, ca: Chain, b: DB, cb: Chain, c: DB, cc: Chain)
    requires NoNewStale(a, ca, b, cb) && NoNewStale(b, cb, c, cc)
    ensures NoNewStale(a, ca, c, cc)
  {
  }

  lemma PrefixIsValid(chain: Chain, n: nat)
    requires ValidChain(chain) && n <= |chain|
    ensures ValidChain(chain[..n])
  {
    forall m: nat | m < n ensures ValidAt(chain[..n], m) {
      assert chain[..n][..m] == chain[..m] && ValidAt(chain, m);
    }
  }

  lemma {:induction false} KnownAfter(db: DB, blocks: seq<Block>, forward: bool)
    ensures MovedAll(db, blocks, forward).state.Keys == db.state.Keys
  {
    if blocks != [] {
      KnownAfter(db, blocks[..|blocks| - 1], forward);
      MovedKeepsKnown(MovedAll(db, blocks[..|blocks| - 1], forward).state, blocks[|blocks| - 1], forward);
    }
  }
}
