// The racing downloads of one chunk: recoverChunk of slabs/downloads.go. The main goroutine spawns
// the initial hosts, hedges with further ones, waits for all of them and reconstructs; every worker
// reads one host. Atomic steps of all of them interleave arbitrarily, and the context may be
// cancelled at any time. Timeouts are failed reads.
module ChunkRace {
  import opened Common

  type Host = nat

  // A worker holds a semaphore slot until SlotFreed, and its reservation until Gone. ok says whether
  // it filled its column.
  datatype Phase = Spawned | Filled | Counted | SlotFreed(ok: bool) | Gone(ok: bool) {
    predicate HoldsSlot() {
      Spawned? || Filled? || Counted?
    }

    predicate HasColumn() {
      Filled? || Counted? || (SlotFreed? && ok) || (Gone? && ok)
    }

    predicate WasCounted() {
      HasColumn() && !Filled?
    }
  }

  datatype Main = Initial(next: nat) | Racing | Hedging | SlotTaken | Waiting | Finished(ok: bool)

  // readLog, reserved and released are histories; leaked is the slot kept when no host could be
  // re-picked.
  datatype State = State(
    pc: Main, initial: seq<Host>, remaining: set<Host>, workers: map<Host, Phase>,
    slots: nat, leaked: bool, downloaded: nat, cancelled: bool,
    readLog: seq<Host>, reserved: seq<Host>, released: seq<Host>)

  datatype Action =
    | Cancel
    | SpawnInitial | AbortInitial | EndInitial
    | Hedge | TakeSlot | Repick(host: Host, rest: set<Host>) | RepickNone | LeaveRace
    | ReadOk(host: Host) | ReadFailed(host: Host) | Skip(host: Host)
    | Count(host: Host) | FreeSlot(host: Host) | Release(host: Host)
    | Return

  predicate WorkerIs(s: State, h: Host, p: Phase) {
    h in s.workers && s.workers[h] == p
  }

  predicate Enabled(s: State, k: nat, a: Action) {
    match a
    case Cancel => true
    case SpawnInitial => s.pc.Initial? && s.pc.next < |s.initial| && s.slots < k
    case AbortInitial => s.pc.Initial? && s.pc.next < |s.initial| && s.cancelled
    case EndInitial => s.pc.Initial? && s.pc.next == |s.initial|
    case Hedge => s.pc.Racing? && s.downloaded < k && s.remaining != {}
    case TakeSlot => s.pc.Hedging? && s.slots < k
    case Repick(h, rest) => s.pc.SlotTaken? && h in s.remaining && rest <= s.remaining - {h}
    case RepickNone => s.pc.SlotTaken?
    case LeaveRace => (s.pc.Racing? && (s.downloaded >= k || s.remaining == {})) || (s.pc.Hedging? && s.cancelled)
    case ReadOk(h) => WorkerIs(s, h, Spawned)
    case ReadFailed(h) => WorkerIs(s, h, Spawned)
    case Skip(h) => WorkerIs(s, h, Spawned) && s.cancelled
    case Count(h) => WorkerIs(s, h, Filled)
    case FreeSlot(h) => WorkerIs(s, h, Counted)
    case Release(h) => h in s.workers && s.workers[h].SlotFreed?
    case Return => s.pc.Waiting? && forall h :: h in s.workers ==> s.workers[h].Gone?
  }

  function Next(s: State, k: nat, a: Action): State
    requires Enabled(s, k, a)
  {
    match a
    case Cancel => s.(cancelled := true)
    case SpawnInitial =>
      s.(pc := Initial(s.pc.next + 1), workers := s.workers[s.initial[s.pc.next] := Spawned], slots := s.slots + 1)
    case AbortInitial => s.(pc := Racing, released := s.released + s.initial[s.pc.next..])
    case EndInitial => s.(pc := Racing)
    case Hedge => s.(pc := Hedging)
    case TakeSlot => s.(pc := SlotTaken, slots := s.slots + 1)
    case Repick(h, rest) => s.(pc := Racing, workers := s.workers[h := Spawned], remaining := rest, reserved := s.reserved + [h])
    case RepickNone => s.(pc := Waiting, leaked := true)
    case LeaveRace => s.(pc := Waiting)
    case ReadOk(h) => s.(workers := s.workers[h := Filled], readLog := s.readLog + [h])
    case ReadFailed(h) => s.(workers := s.workers[h := SlotFreed(false)], readLog := s.readLog + [h], slots := if s.slots > 0 then s.slots - 1 else 0)
    case Skip(h) => s.(workers := s.workers[h := SlotFreed(false)], slots := if s.slots > 0 then s.slots - 1 else 0)
    case Count(h) => s.(workers := s.workers[h := Counted], downloaded := s.downloaded + 1)
    case FreeSlot(h) => s.(workers := s.workers[h := SlotFreed(true)], slots := if s.slots > 0 then s.slots - 1 else 0)
    case Release(h) => s.(workers := s.workers[h := Gone(s.workers[h].ok)], released := s.released + [h])
    case Return => s.(pc := Finished(s.downloaded >= k))
  }

  // PickReads reserved the k best usable candidates; the other usable ones remain.
  ghost predicate IsStart(s: State, candidates: set<Host>, k: nat) {
    && |s.initial| == k && Distinct(s.initial) && (forall h :: h in s.initial ==> h in candidates && h !in s.remaining)
    && s.remaining <= candidates
    && s == State(Initial(0), s.initial, s.remaining, map[], 0, false, 0, s.cancelled, [], s.initial, [])
  }

  ghost predicate Distinct<T>(s: seq<T>) {
    forall i, j :: 0 <= i < j < |s| ==> s[i] != s[j]
  }

  ghost function Holders(s: State): set<Host> {
    set h | h in s.workers && s.workers[h].HoldsSlot()
  }

  ghost function CountedHosts(s: State): set<Host> {
    set h | h in s.workers && s.workers[h].WasCounted()
  }

  // The hosts whose column is filled.
  ghost function Columns(s: State): set<Host> {
    set h | h in s.workers && s.workers[h].HasColumn()
  }

  // Initial hosts that have not been spawned yet.
  ghost function Unspawned(s: State): seq<Host> {
    if s.pc.Initial? && s.pc.next <= |s.initial| then s.initial[s.pc.next..] else []
  }

  // A host with a reservation that is still to be released.
  ghost predicate Outstanding(s: State, h: Host) {
    h in Unspawned(s) || (h in s.workers && !s.workers[h].Gone?)
  }

  ghost predicate SlotsOk(s: State, k: nat) {
    && s.slots == |Holders(s)| + (if s.pc.SlotTaken? then 1 else 0) + (if s.leaked then 1 else 0)
    && s.slots <= k && (s.leaked ==> s.pc.Waiting? || s.pc.Finished?)
  }

  ghost predicate ReservationOk(s: State, h: Host) {
    && (Outstanding(s, h) ==> h in s.reserved && h !in s.released)
    && (h in s.reserved && h !in s.released ==> Outstanding(s, h))
    && (h in s.released ==> h in s.reserved && (h in s.workers ==> s.workers[h].Gone?))
    && (h in s.workers ==> h in s.reserved)
  }

  ghost predicate ReadOnce(s: State, h: Host) {
    h in s.readLog ==> h in s.workers && !s.workers[h].Spawned?
  }

  ghost predicate Invariant(s: State, candidates: set<Host>, k: nat) {
    && (s.pc.Initial? ==> s.pc.next <= |s.initial|) && Distinct(s.initial)
    && SlotsOk(s, k)
    && s.downloaded == |CountedHosts(s)|
    && (forall h :: h in s.reserved ==> h in candidates && h !in s.remaining) && s.remaining <= candidates
    && (forall h {:trigger Outstanding(s, h)} :: h in Unspawned(s) ==> h !in s.workers)
    && Distinct(s.reserved) && Distinct(s.released) && Distinct(s.readLog)
    && (forall h {:trigger ReservationOk(s, h)} :: ReservationOk(s, h))
    && (forall h {:trigger ReadOnce(s, h)} :: ReadOnce(s, h))
    && (s.pc.Finished? ==> (forall h :: h in s.workers ==> s.workers[h].Gone?) && (s.pc.ok <==> s.downloaded >= k))
  }

  lemma StartIsInvariant(s: State, candidates: set<Host>, k: nat)
    requires IsStart(s, candidates, k)
    ensures Invariant(s, candidates, k)
  {
    assert s.initial[0..] == s.initial;
    assert Holders(s) == {} && CountedHosts(s) == {};
  }

  function One(b: bool): nat {
    if b then 1 else 0
  }

  lemma PutCount(s: set<Host>, h: Host, b: bool)
    ensures |if b then s + {h} else s - {h}| == |s| + One(b) - One(h in s)
  {
    if b && h in s {
      assert s + {h} == s;
    } else if !b && h !in s {
      assert s - {h} == s;
    }
  }

  lemma PhaseSets(s: State, t: State, h: Host)
    requires h in t.workers && t.workers == s.workers[h := t.workers[h]]
    ensures Holders(t) == if t.workers[h].HoldsSlot() then Holders(s) + {h} else Holders(s) - {h}
    ensures CountedHosts(t) == if t.workers[h].WasCounted() then CountedHosts(s) + {h} else CountedHosts(s) - {h}
    ensures h in Holders(s) <==> h in s.workers && s.workers[h].HoldsSlot()
    ensures h in CountedHosts(s) <==> h in s.workers && s.workers[h].WasCounted()
  {
  }

  // How one worker's move changes the counters.
  lemma PhaseChange(s: State, t: State, h: Host)
    requires h in t.workers && t.workers == s.workers[h := t.workers[h]]
    ensures |Holders(t)| == |Holders(s)| + One(t.workers[h].HoldsSlot()) - One(h in s.workers && s.workers[h].HoldsSlot())
    ensures |CountedHosts(t)| == |CountedHosts(s)| + One(t.workers[h].WasCounted()) - One(h in s.workers && s.workers[h].WasCounted())
  {
    PhaseSets(s, t, h);
    PutCount(Holders(s), h, t.workers[h].HoldsSlot());
    PutCount(CountedHosts(s), h, t.workers[h].WasCounted());
  }

  // The worker a step moves, if any.
  function Mover(s: State, a: Action): Option<Host> {
    match a
    case SpawnInitial => if s.pc.Initial? && s.pc.next < |s.initial| then Some(s.initial[s.pc.next]) else None
    case Repick(h, _) => Some(h)
    case ReadOk(h) => Some(h)
    case ReadFailed(h) => Some(h)
    case Skip(h) => Some(h)
    case Count(h) => Some(h)
    case FreeSlot(h) => Some(h)
    case Release(h) => Some(h)
    case _ => None
  }

  // A spawned host was no worker before.
  ghost predicate SpawnsNew(s: State, a: Action) {
    a.SpawnInitial? || a.Repick? ==> Mover(s, a).Some? && Mover(s, a).value !in s.workers
  }

  lemma CountersAfter(s: State, k: nat, a: Action)
    requires SlotsOk(s, k) && s.downloaded == |CountedHosts(s)| && Enabled(s, k, a) && SpawnsNew(s, a)
    ensures SlotsOk(Next(s, k, a), k) && Next(s, k, a).downloaded == |CountedHosts(Next(s, k, a))|
  {
    var t := Next(s, k, a);
    var m := Mover(s, a);
    if m.Some? {
      PhaseChange(s, t, m.value);
    } else {
      assert Holders(t) == Holders(s) && CountedHosts(t) == CountedHosts(s);
    }
  }

  lemma StepSpawnsNew(s: State, candidates: set<Host>, k: nat, a: Action)
    requires Invariant(s, candidates, k) && Enabled(s, k, a)
    ensures SpawnsNew(s, a)
  {
    if a.SpawnInitial? {
      assert s.initial[s.pc.next] == Unspawned(s)[0];
      assert Outstanding(s, s.initial[s.pc.next]);
    } else if a.Repick? {
      assert ReservationOk(s, a.host);
    }
  }

  lemma UnspawnedAfter(s: State, candidates: set<Host>, k: nat, a: Action, h: Host)
    requires Invariant(s, candidates, k) && Enabled(s, k, a)
    ensures var t := Next(s, k, a);
            h in Unspawned(t) <==> h in Unspawned(s) && !a.AbortInitial? && !(a.SpawnInitial? && h == s.initial[s.pc.next])
  {
    var t := Next(s, k, a);
    if a.SpawnInitial? {
      assert Unspawned(s) == [s.initial[s.pc.next]] + Unspawned(t);
      assert s.initial[s.pc.next] !in Unspawned(t);
    } else if a.EndInitial? {
      assert Unspawned(s) == [];
    }
  }

  lemma ReservationAfter(s: State, candidates: set<Host>, k: nat, a: Action, h: Host)
    requires Invariant(s, candidates, k) && Enabled(s, k, a)
    ensures ReservationOk(Next(s, k, a), h)
  {
    UnspawnedAfter(s, candidates, k, a, h);
    StepSpawnsNew(s, candidates, k, a);
    assert ReservationOk(s, h);
    if a.Repick? || a.Release? {
      assert ReservationOk(s, a.host);
    }
    assert h in Unspawned(s) ==> Outstanding(s, h);
  }

  lemma ReadsAfter(s: State, candidates: set<Host>, k: nat, a: Action, h: Host)
    requires Invariant(s, candidates, k) && Enabled(s, k, a)
    ensures ReadOnce(Next(s, k, a), h)
  {
    StepSpawnsNew(s, candidates, k, a);
    assert ReadOnce(s, h);
  }

  // The histories stay free of repetitions.
  lemma HistoriesAfter(s: State, candidates: set<Host>, k: nat, a: Action)
    requires Invariant(s, candidates, k) && Enabled(s, k, a)
    ensures var t := Next(s, k, a); Distinct(t.reserved) && Distinct(t.released) && Distinct(t.readLog)
  {
    var t := Next(s, k, a);
    if a.ReadOk? || a.ReadFailed? {
      assert ReadOnce(s, a.host);
      AppendDistinct(s.readLog, [a.host]);
    } else if a.Repick? {
      AppendDistinct(s.reserved, [a.host]);
    } else if a.Release? {
      assert ReservationOk(s, a.host);
      AppendDistinct(s.released, [a.host]);
    } else if a.AbortInitial? {
      forall h | h in Unspawned(s) ensures h !in s.released {
        assert Outstanding(s, h) && ReservationOk(s, h);
      }
      AppendDistinct(s.released, Unspawned(s));
    }
  }

  lemma AppendDistinct(s: seq<Host>, more: seq<Host>)
    requires Distinct(s) && Distinct(more) && forall h :: h in more ==> h !in s
    ensures Distinct(s + more)
  {
    forall i, j | 0 <= i < j < |s + more| ensures (s + more)[i] != (s + more)[j] {
      if i < |s| <= j {
        assert (s + more)[j] in more && (s + more)[i] in s;
      }
    }
  }

  lemma StepKeepsInvariant(s: State, candidates: set<Host>, k: nat, a: Action)
    requires Invariant(s, candidates, k) && Enabled(s, k, a)
    ensures Invariant(Next(s, k, a), candidates, k)
  {
    var t := Next(s, k, a);
    StepSpawnsNew(s, candidates, k, a);
    CountersAfter(s, k, a);
    HistoriesAfter(s, candidates, k, a);
    forall h ensures ReservationOk(t, h) && ReadOnce(t, h) && (h in Unspawned(t) ==> h !in t.workers) {
      UnspawnedAfter(s, candidates, k, a, h);
      assert h in Unspawned(s) ==> Outstanding(s, h);
      ReservationAfter(s, candidates, k, a, h);
      ReadsAfter(s, candidates, k, a, h);
      if a.Repick? {
        assert ReservationOk(s, a.host);
      }
    }
  }

  ghost predicate IsRun(s: State, k: nat, run: seq<Action>)
    decreases |run|
  {
    run == [] || (Enabled(s, k, run[0]) && IsRun(Next(s, k, run[0]), k, run[1..]))
  }

  ghost function After(s: State, k: nat, run: seq<Action>): State
    requires IsRun(s, k, run)
    decreases |run|
  {
    if run == [] then s else After(Next(s, k, run[0]), k, run[1..])
  }

  lemma {:induction false} RunKeepsInvariant(s: State, candidates: set<Host>, k: nat, run: seq<Action>)
    requires Invariant(s, candidates, k) && IsRun(s, k, run)
    ensures Invariant(After(s, k, run), candidates, k)
    decreases |run|
  {
    if run != [] {
      StepKeepsInvariant(s, candidates, k, run[0]);
      RunKeepsInvariant(Next(s, k, run[0]), candidates, k, run[1..]);
    }
  }

  // At any moment of any run: every host is read at most once, at most k workers hold a slot and so
  // at most k reads are in flight, and the counter counts the filled columns whose worker got past
  // the increment.
  lemma ReadsAreBounded(s: State, candidates: set<Host>, k: nat, run: seq<Action>)
    requires IsStart(s, candidates, k) && IsRun(s, k, run)
    ensures var t := After(s, k, run);
            && Distinct(t.readLog) && (forall h :: h in t.readLog ==> h in candidates)
            && |Holders(t)| <= k
            && t.downloaded == |CountedHosts(t)| && CountedHosts(t) <= Columns(t)
  {
    StartIsInvariant(s, candidates, k);
    RunKeepsInvariant(s, candidates, k, run);
    var t := After(s, k, run);
    forall h | h in t.readLog ensures h in candidates {
      assert ReadOnce(t, h) && ReservationOk(t, h);
    }
  }

  // When the chunk returns: every reservation has been released exactly once, the counter is the
  // number of filled columns, and reconstruction is reached exactly when there are at least k.
  lemma ReturnIsClean(s: State, candidates: set<Host>, k: nat, run: seq<Action>)
    requires IsStart(s, candidates, k) && IsRun(s, k, run) && After(s, k, run).pc.Finished?
    ensures var t := After(s, k, run);
            && Distinct(t.released) && Distinct(t.reserved) && (forall h :: h in t.released <==> h in t.reserved)
            && t.downloaded == |Columns(t)|
            && (t.pc.ok <==> |Columns(t)| >= k)
  {
    StartIsInvariant(s, candidates, k);
    RunKeepsInvariant(s, candidates, k, run);
    var t := After(s, k, run);
    forall h ensures h in t.released <==> h in t.reserved {
      assert ReservationOk(t, h);
    }
    assert Columns(t) == CountedHosts(t);
  }

  // No deadlock: until it returns, some step other than a cancellation is possible.
  lemma SomeStepIsEnabled(s: State, candidates: set<Host>, k: nat, run: seq<Action>)
    requires k > 0 && IsStart(s, candidates, k) && IsRun(s, k, run) && !After(s, k, run).pc.Finished?
    ensures exists a: Action :: !a.Cancel? && Enabled(After(s, k, run), k, a)
  {
    StartIsInvariant(s, candidates, k);
    RunKeepsInvariant(s, candidates, k, run);
    var t := After(s, k, run);
    if h :| h in t.workers && !t.workers[h].Gone? {
      var p := t.workers[h];
      var a := if p.Spawned? then ReadFailed(h) else if p.Filled? then Count(h) else if p.Counted? then FreeSlot(h) else Release(h);
      assert Enabled(t, k, a);
    } else {
      assert Holders(t) == {};
      var a := match t.pc
        case Initial(n) => if n < |t.initial| then SpawnInitial else EndInitial
        case Racing => if t.downloaded < k && t.remaining != {} then Hedge else LeaveRace
        case Hedging => TakeSlot
        case SlotTaken => RepickNone
        case Waiting => Return
        case Finished(_) => Cancel;
      assert Enabled(t, k, a);
    }
  }

  // --- the candidate set ---

  // Of a sector the race needs the root and the host.
  datatype HostedRoot = HostedRoot(root: nat, host: Option<Host>)

  // The first sector of the slab on this host.
  ghost predicate FirstOn(sectors: seq<HostedRoot>, h: Host, i: nat) {
    i < |sectors| && sectors[i].host == Some(h) && forall j :: 0 <= j < i ==> sectors[j].host != Some(h)
  }

  // The candidates are the distinct hosts that are not excluded, each reading the first sector it
  // stores.
  method BuildCandidates(sectors: seq<HostedRoot>, excluded: set<Host>) returns (candidates: seq<Host>, slabHosts: map<Host, nat>)
    ensures Distinct(candidates) && forall h :: h in candidates <==> h in slabHosts
    ensures forall h :: h in slabHosts <==> h !in excluded && exists i :: 0 <= i < |sectors| && sectors[i].host == Some(h)
    ensures forall h :: h in slabHosts ==> FirstOn(sectors, h, slabHosts[h])
  {
    candidates, slabHosts := [], map[];
    for i := 0 to |sectors|
      invariant Distinct(candidates) && forall h :: h in candidates <==> h in slabHosts
      invariant forall h :: h in slabHosts <==> h !in excluded && exists j :: 0 <= j < i && sectors[j].host == Some(h)
      invariant forall h :: h in slabHosts ==> FirstOn(sectors, h, slabHosts[h])
    {
      var sector := sectors[i];
      if sector.host.None? || sector.host.value in excluded || sector.host.value in slabHosts {
        continue;
      }
      candidates := candidates + [sector.host.value];
      slabHosts := slabHosts[sector.host.value := i];
    }
  }

  // Distinct hosts fill distinct columns, so counting hosts counts columns.
  lemma {:induction false} ColumnsAreDistinct(sectors: seq<HostedRoot>, slabHosts: map<Host, nat>, hosts: set<Host>)
    requires forall h :: h in slabHosts ==> FirstOn(sectors, h, slabHosts[h])
    requires hosts <= slabHosts.Keys
    ensures |set h | h in hosts :: slabHosts[h]| == |hosts|
  {
    if h :| h in hosts {
      ColumnsAreDistinct(sectors, slabHosts, hosts - {h});
      assert (set x | x in hosts :: slabHosts[x]) == (set x | x in hosts - {h} :: slabHosts[x]) + {slabHosts[h]};
    }
  }

  // --- what a recovery remembers between its chunks ---

  datatype Lost = Lost(root: nat, host: Host)

  predicate StoredOn(sectors: seq<HostedRoot>, l: Lost) {
    exists i :: 0 <= i < |sectors| && sectors[i] == HostedRoot(l.root, Some(l.host))
  }

  // The excluded hosts and the sectors reported lost, shared by the chunks of one recovery.
  class LostLog {
    const sectors: seq<HostedRoot>
    var excluded: set<Host>
    var lost: seq<Lost>

    // Every report names a sector the slab has on that host, and exactly the reported hosts are excluded.
    ghost predicate Valid()
      reads this
    {
      && (forall l :: l in lost ==> StoredOn(sectors, l))
      && (forall h :: h in excluded <==> exists l :: l in lost && l.host == h)
    }

    constructor (sectors: seq<HostedRoot>)
      ensures Valid() && this.sectors == sectors && lost == []
    {
      this.sectors, excluded, lost := sectors, {}, [];
    }

    // A chunk's candidates: no host reported lost by an earlier chunk is read again.
    method StartChunk() returns (candidates: seq<Host>, slabHosts: map<Host, nat>)
      requires Valid()
      ensures Distinct(candidates)
      ensures forall h :: h in slabHosts ==> h in candidates && FirstOn(sectors, h, slabHosts[h])
      ensures forall h :: h in candidates <==>
        && (exists i :: 0 <= i < |sectors| && sectors[i].host == Some(h))
        && (forall l :: l in lost ==> l.host != h)
    {
      candidates, slabHosts := BuildCandidates(sectors, excluded);
    }

    // A host of some chunk's candidates reported the sector it was asked for as lost.
    method MarkLost(h: Host, index: nat)
      requires Valid() && FirstOn(sectors, h, index)
      modifies this
      ensures Valid() && lost == old(lost) + [Lost(sectors[index].root, h)]
      ensures excluded == old(excluded) + {h}
    {
      assert StoredOn(sectors, Lost(sectors[index].root, h));
      excluded := excluded + {h};
      lost := lost + [Lost(sectors[index].root, h)];
    }
  }
}
