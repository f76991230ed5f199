// The refcounted contract locks of contracts/locking.go.
//
// One lock activation ("call") passes through the phases Waiting, Holding and Releasing. Every
// critical section of the source is one atomic step: the two sections of LockContract, the single
// section of TryLockContract, and the two halves of the unlock closure. Any number of calls
// interleave these steps arbitrarily.
module LockProtocol {
  type ContractID = nat
  type Call = nat
  type Ref = object // the address of a lock object

  datatype Phase = Waiting(ref: Ref) | Holding(ref: Ref) | Releasing(ref: Ref)

  // A lock object: the contract it was created for, its refcount and whether its mutex is taken.
  datatype Cell = Cell(id: ContractID, refcount: int, held: bool)

  // cells are all lock objects ever created, table is the lockedContracts map, calls are the
  // activations that have not finished.
  datatype State = State(cells: map<Ref, Cell>, table: map<ContractID, Ref>, calls: map<Call, Phase>)

  // addr is the address a new lock object gets, if one is created.
  datatype Action =
    | Enter(call: Call, id: ContractID, addr: Ref)
    | Acquire(call: Call)
    | TryLock(call: Call, id: ContractID, addr: Ref)
    | Unlock(call: Call)
    | Release(call: Call)

  predicate Enabled(s: State, a: Action) {
    match a
    case Enter(c, id, r) => c !in s.calls && (if id in s.table then s.table[id] in s.cells else r !in s.cells)
    case Acquire(c) => c in s.calls && s.calls[c].Waiting? && s.calls[c].ref in s.cells && !s.cells[s.calls[c].ref].held
    case TryLock(c, id, r) => c !in s.calls && (id !in s.table ==> r !in s.cells)
    case Unlock(c) => c in s.calls && s.calls[c].Holding? && s.calls[c].ref in s.cells
    case Release(c) => c in s.calls && s.calls[c].Releasing? && s.calls[c].ref in s.cells
  }

  // The state after one critical section.
  function Next(s: State, a: Action): State
    requires Enabled(s, a)
  {
    match a
    case Enter(c, id, r) =>
      var lc := if id in s.table then s.table[id] else r;
      var cell := if id in s.table then s.cells[lc] else Cell(id, 0, false);
      State(s.cells[lc := cell.(refcount := cell.refcount + 1)], s.table[id := lc], s.calls[c := Waiting(lc)])
    case Acquire(c) =>
      var lc := s.calls[c].ref;
      s.(cells := s.cells[lc := s.cells[lc].(held := true)], calls := s.calls[c := Holding(lc)])
    case TryLock(c, id, r) =>
      if id in s.table then s
      else State(s.cells[r := Cell(id, 1, true)], s.table[id := r], s.calls[c := Holding(r)])
    case Unlock(c) =>
      var lc := s.calls[c].ref;
      s.(cells := s.cells[lc := s.cells[lc].(held := false)], calls := s.calls[c := Releasing(lc)])
    case Release(c) =>
      var lc := s.calls[c].ref;
      var cell := s.cells[lc].(refcount := s.cells[lc].refcount - 1);
      State(s.cells[lc := cell], if cell.refcount == 0 then s.table - {cell.id} else s.table, s.calls - {c})
  }

  ghost function Users(s: State, r: Ref): set<Call> {
    set c | c in s.calls && s.calls[c].ref == r
  }

  // A table entry names a lock object of that contract which is in use.
  ghost predicate EntryOk(s: State, id: ContractID)
    requires id in s.table
  {
    s.table[id] in s.cells && s.cells[s.table[id]].id == id && s.cells[s.table[id]].refcount > 0
  }

  // The refcount counts the users, and an object in use is the one the table names.
  ghost predicate CellOk(s: State, r: Ref)
    requires r in s.cells
  {
    && s.cells[r].refcount == |Users(s, r)|
    && (s.cells[r].refcount > 0 ==> s.cells[r].id in s.table && s.table[s.cells[r].id] == r)
  }

  ghost predicate CountsUsers(s: State) {
    && (forall id {:trigger EntryOk(s, id)} :: id in s.table ==> EntryOk(s, id))
    && (forall c :: c in s.calls ==> s.calls[c].ref in s.cells)
    && (forall r {:trigger CellOk(s, r)} :: r in s.cells ==> CellOk(s, r))
  }

  ghost predicate HeldBySome(s: State, r: Ref) {
    exists c :: c in s.calls && s.calls[c] == Holding(r)
  }

  // A mutex is taken exactly while one call holds it.
  ghost predicate OneHolder(s: State) {
    && (forall c :: c in s.calls ==> s.calls[c].ref in s.cells)
    && (forall c :: c in s.calls && s.calls[c].Holding? ==> s.cells[s.calls[c].ref].held)
    && (forall r {:trigger HeldBySome(s, r)} :: r in s.cells && s.cells[r].held ==> HeldBySome(s, r))
    && (forall c, d :: c in s.calls && d in s.calls && s.calls[c].Holding? && s.calls[c] == s.calls[d] ==> c == d)
  }

  ghost predicate Invariant(s: State) {
    CountsUsers(s) && OneHolder(s)
  }

  const INITIAL: State := State(map[], map[], map[])

  lemma UsersAfterJoin(s: State, t: State, c: Call, r: Ref)
    requires c !in s.calls && c in t.calls && t.calls[c].ref == r && t.calls == s.calls[c := t.calls[c]]
    ensures |Users(t, r)| == |Users(s, r)| + 1
    ensures forall q :: q != r ==> Users(t, q) == Users(s, q)
  {
    assert Users(t, r) == Users(s, r) + {c};
  }

  lemma UsersAfterLeave(s: State, t: State, c: Call)
    requires c in s.calls && t.calls == s.calls - {c}
    ensures |Users(t, s.calls[c].ref)| == |Users(s, s.calls[c].ref)| - 1
    ensures forall q :: q != s.calls[c].ref ==> Users(t, q) == Users(s, q)
  {
    assert c in Users(s, s.calls[c].ref);
    assert Users(t, s.calls[c].ref) == Users(s, s.calls[c].ref) - {c};
  }

  lemma UsersAfterMove(s: State, t: State, c: Call)
    requires c in s.calls && c in t.calls && t.calls == s.calls[c := t.calls[c]] && t.calls[c].ref == s.calls[c].ref
    ensures forall q :: Users(t, q) == Users(s, q)
  {
  }

  // A lock object with a user has a positive refcount and is the one the table names.
  lemma UsedIsLive(s: State, c: Call)
    requires CountsUsers(s) && c in s.calls
    ensures var r := s.calls[c].ref; s.cells[r].refcount > 0 && s.cells[r].id in s.table && s.table[s.cells[r].id] == r
  {
    assert CellOk(s, s.calls[c].ref);
    assert c in Users(s, s.calls[c].ref);
  }

  lemma JoinCountsUsers(s: State, a: Action)
    requires CountsUsers(s) && Enabled(s, a) && (a.Enter? || (a.TryLock? && a.id !in s.table))
    ensures CountsUsers(Next(s, a))
  {
    var t := Next(s, a);
    var lc := t.calls[a.call].ref;
    UsersAfterJoin(s, t, a.call, lc);
    if a.id in s.table {
      assert EntryOk(s, a.id) && CellOk(s, lc);
    } else {
      assert Users(s, lc) == {};
    }
    forall id | id in t.table ensures EntryOk(t, id) {
      assert id in s.table ==> EntryOk(s, id);
    }
    forall r | r in t.cells ensures CellOk(t, r) {
      assert r in s.cells ==> CellOk(s, r);
    }
  }

  lemma ReleaseCountsUsers(s: State, c: Call)
    requires CountsUsers(s) && Enabled(s, Release(c))
    ensures CountsUsers(Next(s, Release(c)))
  {
    var t := Next(s, Release(c));
    UsersAfterLeave(s, t, c);
    UsedIsLive(s, c);
    forall id | id in t.table ensures EntryOk(t, id) {
      assert EntryOk(s, id);
    }
    forall r | r in t.cells ensures CellOk(t, r) {
      assert CellOk(s, r);
    }
  }

  lemma MoveCountsUsers(s: State, a: Action)
    requires CountsUsers(s) && Enabled(s, a) && (a.Acquire? || a.Unlock?)
    ensures CountsUsers(Next(s, a))
  {
    var t := Next(s, a);
    UsersAfterMove(s, t, a.call);
    forall id | id in t.table ensures EntryOk(t, id) {
      assert EntryOk(s, id);
    }
    forall r | r in t.cells ensures CellOk(t, r) {
      assert CellOk(s, r);
    }
  }

  lemma StepCountsUsers(s: State, a: Action)
    requires CountsUsers(s) && Enabled(s, a)
    ensures CountsUsers(Next(s, a))
  {
    if a.Enter? || (a.TryLock? && a.id !in s.table) {
      JoinCountsUsers(s, a);
    } else if a.Release? {
      ReleaseCountsUsers(s, a.call);
    } else if !a.TryLock? {
      MoveCountsUsers(s, a);
    }
  }

  lemma StepKeepsOneHolder(s: State, a: Action)
    requires OneHolder(s) && Enabled(s, a)
    ensures OneHolder(Next(s, a))
  {
    var t := Next(s, a);
    forall q | q in t.cells && t.cells[q].held ensures HeldBySome(t, q) {
      if a.call in t.calls && t.calls[a.call] == Holding(q) {
      } else {
        assert HeldBySome(s, q);
        var d :| d in s.calls && s.calls[d] == Holding(q);
        assert t.calls[d] == Holding(q);
      }
    }
    assert forall c :: c in t.calls && c != a.call ==> c in s.calls && t.calls[c] == s.calls[c];
    assert a.Acquire? ==> !HeldBySome(s, s.calls[a.call].ref);
  }

  // Every critical section keeps the invariant.
  lemma StepKeepsInvariant(s: State, a: Action)
    requires Invariant(s) && Enabled(s, a)
    ensures Invariant(Next(s, a))
  {
    StepCountsUsers(s, a);
    StepKeepsOneHolder(s, a);
  }

  // The states of a run: every step is enabled when it is taken.
  ghost predicate IsRun(s: State, run: seq<Action>)
    decreases |run|
  {
    run == [] || (Enabled(s, run[0]) && IsRun(Next(s, run[0]), run[1..]))
  }

  ghost function After(s: State, run: seq<Action>): State
    requires IsRun(s, run)
    decreases |run|
  {
    if run == [] then s else After(Next(s, run[0]), run[1..])
  }

  lemma {:induction false} RunKeepsInvariant(s: State, run: seq<Action>)
    requires Invariant(s) && IsRun(s, run)
    ensures Invariant(After(s, run))
    decreases |run|
  {
    if run != [] {
      StepKeepsInvariant(s, run[0]);
      RunKeepsInvariant(Next(s, run[0]), run[1..]);
    }
  }

  // Mutual exclusion per contract ID, across lock objects: no run reaches a state in which two
  // calls hold the same contract.
  lemma MutualExclusion(run: seq<Action>, c: Call, d: Call)
    requires IsRun(INITIAL, run)
    requires var s := After(INITIAL, run); c in s.calls && d in s.calls && s.calls[c].Holding? && s.calls[d].Holding?
    requires var s := After(INITIAL, run);
             s.calls[c].ref in s.cells && s.calls[d].ref in s.cells && s.cells[s.calls[c].ref].id == s.cells[s.calls[d].ref].id
    ensures c == d
  {
    RunKeepsInvariant(INITIAL, run);
    UsedIsLive(After(INITIAL, run), c);
    UsedIsLive(After(INITIAL, run), d);
  }

  // The table has an entry for a contract exactly while some call waits for, holds or is about to
  // release it.
  lemma EntryIffUsed(run: seq<Action>, id: ContractID)
    requires IsRun(INITIAL, run)
    ensures var s := After(INITIAL, run);
            id in s.table <==> exists c :: c in s.calls && s.calls[c].ref in s.cells && s.cells[s.calls[c].ref].id == id
  {
    RunKeepsInvariant(INITIAL, run);
    var s := After(INITIAL, run);
    if id in s.table {
      assert EntryOk(s, id) && CellOk(s, s.table[id]);
      var u := Users(s, s.table[id]);
      assert |u| > 0;
      var c :| c in u;
    } else if c :| c in s.calls && s.calls[c].ref in s.cells && s.cells[s.calls[c].ref].id == id {
      UsedIsLive(s, c);
    }
  }

  // TryLockContract succeeds exactly when no call uses the contract, and then holds it at once.
  lemma TryLockSucceedsIffUnused(run: seq<Action>, c: Call, id: ContractID, r: Ref)
    requires IsRun(INITIAL, run) && Enabled(After(INITIAL, run), TryLock(c, id, r))
    ensures var s := After(INITIAL, run); var t := Next(s, TryLock(c, id, r));
            (c in t.calls && t.calls[c] == Holding(r))
            <==> !exists d :: d in s.calls && s.calls[d].ref in s.cells && s.cells[s.calls[d].ref].id == id
  {
    EntryIffUsed(run, id);
  }

  // The delete of an unlock only ever removes the entry of the lock object being released, and it
  // happens exactly when nobody else uses that object.
  lemma ReleaseDeletesOwnEntry(run: seq<Action>, c: Call)
    requires IsRun(INITIAL, run) && Enabled(After(INITIAL, run), Release(c))
    ensures var s := After(INITIAL, run); var t := Next(s, Release(c)); var lc := s.calls[c].ref;
            && s.cells[lc].id in s.table && s.table[s.cells[lc].id] == lc
            && (s.cells[lc].id !in t.table <==> Users(s, lc) == {c})
            && (forall id :: id != s.cells[lc].id ==> (id in t.table <==> id in s.table) && (id in s.table ==> t.table[id] == s.table[id]))
  {
    RunKeepsInvariant(INITIAL, run);
    var s := After(INITIAL, run);
    UsedIsLive(s, c);
    var lc := s.calls[c].ref;
    assert CellOk(s, lc) && c in Users(s, lc);
    if s.cells[lc].refcount == 1 {
      assert |Users(s, lc) - {c}| == 0;
      assert Users(s, lc) == {c};
    }
  }

  // No deadlock: while calls remain, one of them can take its next step.
  lemma SomeCallCanStep(run: seq<Action>)
    requires IsRun(INITIAL, run) && After(INITIAL, run).calls != map[]
    ensures var s := After(INITIAL, run);
            exists c :: c in s.calls && (Enabled(s, Acquire(c)) || Enabled(s, Unlock(c)) || Enabled(s, Release(c)))
  {
    RunKeepsInvariant(INITIAL, run);
    var s := After(INITIAL, run);
    var c :| c in s.calls;
    var r := s.calls[c].ref;
    if s.calls[c].Waiting? && s.cells[r].held {
      assert HeldBySome(s, r);
      var d :| d in s.calls && s.calls[d] == Holding(r);
      assert Enabled(s, Unlock(d));
    } else {
      assert Enabled(s, Acquire(c)) || Enabled(s, Unlock(c)) || Enabled(s, Release(c));
    }
  }

  // Nothing leaks: once every call has finished the table is empty.
  lemma QuiescentTableIsEmpty(run: seq<Action>)
    requires IsRun(INITIAL, run) && After(INITIAL, run).calls == map[]
    ensures After(INITIAL, run).table == map[]
  {
    RunKeepsInvariant(INITIAL, run);
    var s := After(INITIAL, run);
    forall id ensures id !in s.table {
      assert id in s.table ==> EntryOk(s, id) && CellOk(s, s.table[id]);
      assert id in s.table ==> Users(s, s.table[id]) == {};
    }
  }
}

// The ContractLocker object. Its methods are the critical sections, and each moves the abstract
// state by exactly the protocol's step, so every run of the object is a run of the protocol.
module ContractLocking {
  import opened LockProtocol

  class LockedContract {
    const id: ContractID
    var refcount: int
    var locked: bool // lc.mu

    constructor (id: ContractID)
      ensures this.id == id && refcount == 0 && !locked
    {
      this.id := id;
      refcount := 0;
      locked := false;
    }
  }

  class ContractLocker {
    var lockedContracts: map<ContractID, LockedContract>
    ghost var created: set<LockedContract>
    ghost var calls: map<Call, Phase>

    ghost function View(): State
      reads this, created
    {
      State(map lc: LockedContract | lc in created :: lc as object := Cell(lc.id, lc.refcount, lc.locked), lockedContracts, calls)
    }

    constructor ()
      ensures View() == State(map[], map[], map[]) && Invariant(View())
    {
      lockedContracts := map[];
      created := {};
      calls := map[];
    }

    // First critical section of LockContract: find or create the lock object and count this call.
    method LockEnter(ghost call: Call, contractID: ContractID) returns (lc: LockedContract)
      requires call !in calls && (contractID in lockedContracts ==> lockedContracts[contractID] in created)
      modifies this, created
      ensures fresh(created - old(created))
      ensures Enabled(old(View()), Enter(call, contractID, lc))
      ensures View() == Next(old(View()), Enter(call, contractID, lc)) && calls[call] == Waiting(lc)
    {
      if contractID in lockedContracts {
        lc := lockedContracts[contractID];
      } else {
        lc := new LockedContract(contractID);
        lockedContracts := lockedContracts[contractID := lc];
        created := created + {lc};
      }
      lc.refcount := lc.refcount + 1;
      calls := calls[call := Waiting(lc)];
    }

    // lc.mu.Lock() going through: the mutex was free.
    method LockAcquire(ghost call: Call, lc: LockedContract)
      requires call in calls && calls[call] == Waiting(lc) && lc in created && !lc.locked
      modifies this`calls, lc`locked
      ensures View() == Next(old(View()), Acquire(call))
    {
      lc.locked := true;
      calls := calls[call := Holding(lc)];
    }

    // TryLockContract: null when an entry exists, else a new lock object that is already held.
    method TryLockContract(ghost call: Call, contractID: ContractID) returns (lc: LockedContract?)
      requires call !in calls
      modifies this
      ensures fresh(created - old(created))
      ensures lc == null <==> old(contractID in lockedContracts)
      ensures lc == null ==> View() == old(View())
      ensures lc != null ==> fresh(lc) && Enabled(old(View()), TryLock(call, contractID, lc))
                             && View() == Next(old(View()), TryLock(call, contractID, lc))
    {
      if contractID in lockedContracts {
        return null;
      }
      lc := new LockedContract(contractID);
      lc.refcount := 1;
      lc.locked := true;
      lockedContracts := lockedContracts[contractID := lc];
      created := created + {lc};
      calls := calls[call := Holding(lc)];
    }

    // First half of the unlock closure: lc.mu.Unlock().
    method UnlockMutex(ghost call: Call, lc: LockedContract)
      requires call in calls && calls[call] == Holding(lc) && lc in created
      modifies this`calls, lc`locked
      ensures View() == Next(old(View()), Unlock(call))
    {
      lc.locked := false;
      calls := calls[call := Releasing(lc)];
    }

    // Second half of the unlock closure: drop the reference and delete the entry at zero.
    method UnlockRelease(ghost call: Call, lc: LockedContract)
      requires call in calls && calls[call] == Releasing(lc) && lc in created
      modifies this`calls, this`lockedContracts, lc`refcount
      ensures View() == Next(old(View()), Release(call))
    {
      lc.refcount := lc.refcount - 1;
      if lc.refcount == 0 {
        lockedContracts := lockedContracts - {lc.id};
      }
      calls := calls - {call};
    }
  }
}
