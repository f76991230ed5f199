// The upload workers of uploadShards in slabs/uploads.go: one worker per shard, drawing hosts from a
// shared pool, at most ten at a time. Every interleaving of their atomic steps is a run.
module UploadPool {
  import opened Common
  import opened Placement

  const MAX_WORKERS := 10

  // Where a shard's worker is: about to pick a host, writing to one, or done with the write and the
  // used check but not yet recorded.
  datatype Phase = Picking | Writing(host: HostKey) | Checked(host: HostKey) | Exited

  datatype Entry = Entry(index: nat, host: HostKey)

  datatype PoolState = PoolState(
    available: set<HostKey>,
    used: set<HostKey>,
    workers: map<nat, Phase>,
    attempts: seq<HostKey>,
    migrated: seq<Entry>,
    cancelled: bool,
    panicked: bool)

  datatype Action =
    | Spawn(index: nat)                 // a semaphore slot was free
    | Cancel                            // the context ends
    | Leave(index: nat)                 // the worker sees the cancelled context
    | Pick(index: nat, host: HostKey)   // PickWrite under poolMu
    | NoHosts(index: nat)
    | WriteFailed(index: nat)
    | RootMismatch(index: nat)          // stops the whole upload
    | WriteDone(index: nat)             // used.Swap
    | Record(index: nat)                // append under migratedMu

  function Active(s: PoolState): set<nat> {
    set i | i in s.workers && !s.workers[i].Exited?
  }

  predicate Enabled(s: PoolState, todo: set<nat>, a: Action) {
    match a
    case Spawn(i) => i in todo && i !in s.workers && |Active(s)| < MAX_WORKERS
    case Cancel => true
    case Leave(i) => i in s.workers && s.workers[i].Picking? && s.cancelled
    case Pick(i, h) => i in s.workers && s.workers[i].Picking? && h in s.available
    case NoHosts(i) => i in s.workers && s.workers[i].Picking? && s.available == {}
    case WriteFailed(i) => i in s.workers && s.workers[i].Writing?
    case RootMismatch(i) => i in s.workers && s.workers[i].Writing?
    case WriteDone(i) => i in s.workers && s.workers[i].Writing?
    case Record(i) => i in s.workers && s.workers[i].Checked?
  }

  function Next(s: PoolState, todo: set<nat>, a: Action): PoolState
    requires Enabled(s, todo, a)
  {
    match a
    case Spawn(i) => s.(workers := s.workers[i := Picking])
    case Cancel => s.(cancelled := true)
    case Leave(i) => s.(workers := s.workers[i := Exited])
    case Pick(i, h) => s.(available := s.available - {h}, workers := s.workers[i := Writing(h)], attempts := s.attempts + [h])
    case NoHosts(i) => s.(workers := s.workers[i := Exited])
    case WriteFailed(i) => s.(workers := s.workers[i := Picking])
    case RootMismatch(i) => s.(workers := s.workers[i := Exited], cancelled := true)
    case WriteDone(i) =>
      var h := s.workers[i].host;
      if h in s.used then s.(panicked := true, workers := s.workers[i := Exited])
      else s.(used := s.used + {h}, workers := s.workers[i := Checked(h)])
    case Record(i) => s.(migrated := s.migrated + [Entry(i, s.workers[i].host)], workers := s.workers[i := Exited])
  }

  // Prioritize may drop candidates; used starts with every host of the slab.
  function Start(pool: set<HostKey>, slabHosts: set<HostKey>): PoolState {
    PoolState(pool, slabHosts, map[], [], [], false, false)
  }

  ghost predicate Busy(s: PoolState, i: nat, h: HostKey) {
    i in s.workers && (s.workers[i] == Writing(h) || s.workers[i] == Checked(h))
  }

  // A worker's host left the pool, was attempted, and is nobody else's.
  ghost predicate WorkerOk(s: PoolState, slabHosts: set<HostKey>, i: nat) {
    i in s.workers && (s.workers[i].Writing? || s.workers[i].Checked?) ==>
      var h := s.workers[i].host;
      && h !in s.available && h in s.attempts && h !in slabHosts
      && (s.workers[i].Writing? <==> h !in s.used)
      && (forall j {:trigger Busy(s, j, h)} :: Busy(s, j, h) ==> j == i)
      && (forall n :: 0 <= n < |s.migrated| ==> s.migrated[n].host != h)
  }

  ghost predicate EntryOk(s: PoolState, slabHosts: set<HostKey>, n: nat)
    requires n < |s.migrated|
  {
    && s.migrated[n].index in s.workers && s.workers[s.migrated[n].index].Exited?
    && s.migrated[n].host in s.used && s.migrated[n].host in s.attempts && s.migrated[n].host !in slabHosts
  }

  ghost predicate Invariant(s: PoolState, pool: set<HostKey>, slabHosts: set<HostKey>, todo: set<nat>) {
    && !s.panicked
    && s.available <= pool && s.available !! s.used && slabHosts <= s.used && |Active(s)| <= MAX_WORKERS
    && (forall i :: i in s.workers ==> i in todo)
    && Distinct(s.attempts) && (forall h :: h in s.attempts ==> h in pool && h !in s.available)
    && (forall h :: h in s.used ==> h in slabHosts || h in s.attempts)
    && (forall i {:trigger WorkerOk(s, slabHosts, i)} :: WorkerOk(s, slabHosts, i))
    && (forall n: nat {:trigger EntryOk(s, slabHosts, n)} :: n < |s.migrated| ==> EntryOk(s, slabHosts, n))
    && (forall m, n :: 0 <= m < n < |s.migrated| ==> s.migrated[m].index != s.migrated[n].index && s.migrated[m].host != s.migrated[n].host)
  }

  lemma StartIsInvariant(pool: set<HostKey>, slabHosts: set<HostKey>, todo: set<nat>)
    requires pool !! slabHosts
    ensures Invariant(Start(pool, slabHosts), pool, slabHosts, todo)
  {
  }

  lemma ActiveAfter(s: PoolState, todo: set<nat>, a: Action)
    requires Enabled(s, todo, a)
    ensures |Active(Next(s, todo, a))| <= |Active(s)| + (if a.Spawn? then 1 else 0)
  {
    var t := Next(s, todo, a);
    if a.Spawn? {
      assert Active(t) == Active(s) + {a.index};
    } else {
      assert Active(t) <= Active(s);
      SubsetSize(Active(t), Active(s));
    }
  }

  lemma SubsetSize(a: set<nat>, b: set<nat>)
    requires a <= b
    ensures |a| <= |b|
  {
    if x :| x in a {
      SubsetSize(a - {x}, b - {x});
    }
  }

  lemma WorkersAfter(s: PoolState, pool: set<HostKey>, slabHosts: set<HostKey>, todo: set<nat>, a: Action, i: nat)
    requires Invariant(s, pool, slabHosts, todo) && Enabled(s, todo, a) && pool !! slabHosts
    ensures WorkerOk(Next(s, todo, a), slabHosts, i)
  {
    var t := Next(s, todo, a);
    assert WorkerOk(s, slabHosts, i);
    if !a.Cancel? {
      assert WorkerOk(s, slabHosts, a.index);
    }
    if i in t.workers && (t.workers[i].Writing? || t.workers[i].Checked?) {
      var h := t.workers[i].host;
      assert !(a.Pick? && a.index == i) ==> Busy(s, i, h);
      assert a.WriteDone? && a.index != i ==> Busy(s, a.index, s.workers[a.index].host);
      forall j | Busy(t, j, h) ensures j == i {
        assert WorkerOk(s, slabHosts, j);
        assert j != i && !(a.Pick? && a.index == j) ==> Busy(s, j, h);
      }
      forall n | 0 <= n < |t.migrated| ensures t.migrated[n].host != h {
        if n < |s.migrated| {
          assert EntryOk(s, slabHosts, n);
        } else {
          assert WorkerOk(s, slabHosts, a.index) && Busy(s, a.index, t.migrated[n].host);
        }
      }
    }
  }

  lemma EntriesAfter(s: PoolState, pool: set<HostKey>, slabHosts: set<HostKey>, todo: set<nat>, a: Action)
    requires Invariant(s, pool, slabHosts, todo) && Enabled(s, todo, a)
    ensures var t := Next(s, todo, a);
            && (forall n: nat {:trigger EntryOk(t, slabHosts, n)} :: n < |t.migrated| ==> EntryOk(t, slabHosts, n))
            && (forall m, n :: 0 <= m < n < |t.migrated| ==> t.migrated[m].index != t.migrated[n].index && t.migrated[m].host != t.migrated[n].host)
  {
    var t := Next(s, todo, a);
    if a.Record? {
      assert WorkerOk(s, slabHosts, a.index);
    }
    forall n: nat | n < |t.migrated| ensures EntryOk(t, slabHosts, n) {
      if n < |s.migrated| {
        assert EntryOk(s, slabHosts, n);
      }
    }
    forall m, n | 0 <= m < n < |t.migrated| ensures t.migrated[m].index != t.migrated[n].index && t.migrated[m].host != t.migrated[n].host {
      assert EntryOk(s, slabHosts, m);
    }
  }

  // Every step keeps the invariant; in particular the used check never fires.
  lemma StepKeepsInvariant(s: PoolState, pool: set<HostKey>, slabHosts: set<HostKey>, todo: set<nat>, a: Action)
    requires Invariant(s, pool, slabHosts, todo) && Enabled(s, todo, a) && pool !! slabHosts
    ensures Invariant(Next(s, todo, a), pool, slabHosts, todo)
  {
    var t := Next(s, todo, a);
    if a.WriteDone? {
      assert WorkerOk(s, slabHosts, a.index);
    }
    ActiveAfter(s, todo, a);
    EntriesAfter(s, pool, slabHosts, todo, a);
    forall i ensures WorkerOk(t, slabHosts, i) {
      WorkersAfter(s, pool, slabHosts, todo, a, i);
    }
  }

  ghost predicate IsRun(s: PoolState, todo: set<nat>, run: seq<Action>)
    decreases |run|
  {
    run == [] || (Enabled(s, todo, run[0]) && IsRun(Next(s, todo, run[0]), todo, run[1..]))
  }

  ghost function After(s: PoolState, todo: set<nat>, run: seq<Action>): PoolState
    requires IsRun(s, todo, run)
    decreases |run|
  {
    if run == [] then s else After(Next(s, todo, run[0]), todo, run[1..])
  }

  lemma {:induction false} RunKeepsInvariant(s: PoolState, pool: set<HostKey>, slabHosts: set<HostKey>, todo: set<nat>, run: seq<Action>)
    requires Invariant(s, pool, slabHosts, todo) && pool !! slabHosts && IsRun(s, todo, run)
    ensures Invariant(After(s, todo, run), pool, slabHosts, todo)
    decreases |run|
  {
    if run != [] {
      StepKeepsInvariant(s, pool, slabHosts, todo, run[0]);
      RunKeepsInvariant(Next(s, todo, run[0]), pool, slabHosts, todo, run[1..]);
    }
  }

  // --- runs end ---

  // Uploads that are not over: a worker is at work, or a shard still has none and the context goes on.
  predicate Unfinished(s: PoolState, todo: set<nat>) {
    Active(s) != {} || (!s.cancelled && exists i :: i in todo && i !in s.workers)
  }

  // No deadlock: until they are over, some step other than a cancellation is possible.
  lemma SomeWorkerCanStep(s: PoolState, todo: set<nat>)
    requires Unfinished(s, todo)
    ensures exists a: Action :: !a.Cancel? && Enabled(s, todo, a)
  {
    if i :| i in Active(s) {
      var p := s.workers[i];
      var a := if p.Writing? then WriteDone(i) else if p.Checked? then Record(i) else NoHosts(i);
      if p.Picking? && s.available != {} {
        var h :| h in s.available;
        a := Pick(i, h);
      }
      assert Enabled(s, todo, a);
    } else {
      var i :| i in todo && i !in s.workers;
      assert Enabled(s, todo, Spawn(i));
    }
  }

  function Pickers(workers: map<nat, Phase>): set<nat> {
    set i | i in workers && workers[i].Picking?
  }

  function Writers(workers: map<nat, Phase>): set<nat> {
    set i | i in workers && workers[i].Writing?
  }

  function Recorders(workers: map<nat, Phase>): set<nat> {
    set i | i in workers && workers[i].Checked?
  }

  function Weight(p: Phase): nat {
    match p
    case Picking => 2
    case Writing(_) => 4
    case Checked(_) => 1
    case Exited => 0
  }

  function Weights(workers: map<nat, Phase>): nat {
    2 * |Pickers(workers)| + 4 * |Writers(workers)| + |Recorders(workers)|
  }

  // How many more steps there can be, cancellations apart: a retry costs a host of the pool.
  function Measure(s: PoolState, todo: set<nat>): nat {
    5 * |todo - s.workers.Keys| + 3 * |s.available| + Weights(s.workers)
  }

  lemma OneMoved(a: set<nat>, b: set<nat>, i: nat)
    requires a - {i} == b - {i}
    ensures |b| == |a| - (if i in a then 1 else 0) + (if i in b then 1 else 0)
  {
    assert i in a ==> a == (a - {i}) + {i};
    assert i in b ==> b == (b - {i}) + {i};
    assert i !in a ==> a == a - {i};
    assert i !in b ==> b == b - {i};
  }

  lemma WorkerMoved(before: map<nat, Phase>, i: nat, p: Phase)
    ensures Weights(before[i := p]) == Weights(before) + Weight(p) - (if i in before then Weight(before[i]) else 0)
  {
    var after := before[i := p];
    OneMoved(Pickers(before), Pickers(after), i);
    OneMoved(Writers(before), Writers(after), i);
    OneMoved(Recorders(before), Recorders(after), i);
  }

  lemma Unspawned(todo: set<nat>, before: map<nat, Phase>, i: nat, p: Phase)
    ensures |todo - before[i := p].Keys| == |todo - before.Keys| - (if i in todo && i !in before then 1 else 0)
  {
    OneMoved(todo - before.Keys, todo - before[i := p].Keys, i);
  }

  // What a step does to its worker.
  lemma StepMoves(s: PoolState, todo: set<nat>, a: Action) returns (p: Phase)
    requires Enabled(s, todo, a) && !a.Cancel?
    ensures Next(s, todo, a).workers == s.workers[a.index := p]
    ensures if a.Spawn? then a.index in todo && a.index !in s.workers && Weight(p) == 2
            else a.index in s.workers && Weight(p) < Weight(s.workers[a.index]) + (if a.Pick? then 3 else 0)
  {
    p := Next(s, todo, a).workers[a.index];
  }

  lemma PoolShrinks(s: PoolState, todo: set<nat>, a: Action)
    requires Enabled(s, todo, a)
    ensures |Next(s, todo, a).available| == |s.available| - (if a.Pick? then 1 else 0)
  {
    if a.Pick? {
      assert s.available == (s.available - {a.host}) + {a.host};
    }
  }

  lemma StepDrops(s: PoolState, todo: set<nat>, a: Action)
    requires Enabled(s, todo, a) && !a.Cancel?
    ensures Measure(Next(s, todo, a), todo) < Measure(s, todo)
  {
    var p := StepMoves(s, todo, a);
    PoolShrinks(s, todo, a);
    WorkerMoved(s.workers, a.index, p);
    Unspawned(todo, s.workers, a.index, p);
    Drops(s, Next(s, todo, a), todo, a.index, p, a.Spawn?, a.Pick?);
  }

  lemma Drops(s: PoolState, t: PoolState, todo: set<nat>, i: nat, p: Phase, spawns: bool, picks: bool)
    requires t.workers == s.workers[i := p] && |t.available| == |s.available| - (if picks then 1 else 0) && !(spawns && picks)
    requires if spawns then i in todo && i !in s.workers && Weight(p) == 2
             else i in s.workers && Weight(p) < Weight(s.workers[i]) + (if picks then 3 else 0)
    requires Weights(t.workers) == Weights(s.workers) + Weight(p) - (if i in s.workers then Weight(s.workers[i]) else 0)
    requires |todo - t.workers.Keys| == |todo - s.workers.Keys| - (if i in todo && i !in s.workers then 1 else 0)
    ensures Measure(t, todo) < Measure(s, todo)
  {
  }

  function CountSteps(run: seq<Action>): nat {
    if run == [] then 0 else (if run[0].Cancel? then 0 else 1) + CountSteps(run[1..])
  }

  lemma {:induction false} RunsAreBounded(s: PoolState, todo: set<nat>, run: seq<Action>)
    requires IsRun(s, todo, run)
    ensures CountSteps(run) + Measure(After(s, todo, run), todo) <= Measure(s, todo)
    decreases |run|
  {
    if run != [] {
      if !run[0].Cancel? {
        StepDrops(s, todo, run[0]);
      }
      RunsAreBounded(Next(s, todo, run[0]), todo, run[1..]);
    }
  }

  // Every interleaving ends: apart from cancellations it has at most five steps a shard and three a host.
  lemma UploadsEnd(pool: set<HostKey>, slabHosts: set<HostKey>, todo: set<nat>, run: seq<Action>)
    requires IsRun(Start(pool, slabHosts), todo, run)
    ensures CountSteps(run) <= 5 * |todo| + 3 * |pool|
  {
    var s := Start(pool, slabHosts);
    RunsAreBounded(s, todo, run);
    assert todo - s.workers.Keys == todo;
    assert Pickers(s.workers) == {} && Writers(s.workers) == {} && Recorders(s.workers) == {};
  }

  // --- uploads of a plan ---

  ghost function HostsOf(sectors: seq<Sector>): set<HostKey> {
    set i | 0 <= i < |sectors| && sectors[i].host.Some? :: sectors[i].host.value
  }

  ghost function Planned(plan: Plan): set<nat> {
    set i | i in plan.indices
  }

  // A run of the pool over the plan's indices and those of its candidates that are still usable.
  ghost predicate IsUpload(sectors: seq<Sector>, plan: Plan, pool: set<HostKey>, run: seq<Action>) {
    (forall h :: h in pool ==> h in plan.candidates) && IsRun(Start(pool, HostsOf(sectors)), Planned(plan), run)
  }

  ghost function Outcome(sectors: seq<Sector>, plan: Plan, pool: set<HostKey>, run: seq<Action>): PoolState
    requires IsUpload(sectors, plan, pool, run)
  {
    After(Start(pool, HostsOf(sectors)), Planned(plan), run)
  }

  // Fed with the candidates of a sound plan, no interleaving ever reaches the "host already used"
  // panic, no host receives two shards or already holds a sector of the slab, every host is tried at
  // most once, and each shard is migrated at most once.
  lemma UploadsAreSafe(sectors: seq<Sector>, state: State, plan: Plan, pool: set<HostKey>, run: seq<Action>)
    requires SoundPlan(sectors, state, plan)
    requires IsUpload(sectors, plan, pool, run)
    ensures var s := Outcome(sectors, plan, pool, run);
            && !s.panicked
            && |Active(s)| <= MAX_WORKERS
            && Distinct(s.attempts)
            && (forall e :: e in s.migrated ==> e.index in plan.indices && e.host in plan.candidates && !HostsSector(sectors, e.host))
            && (forall m, n :: 0 <= m < n < |s.migrated| ==> s.migrated[m].index != s.migrated[n].index && s.migrated[m].host != s.migrated[n].host)
  {
    var todo := Planned(plan);
    var slabHosts := HostsOf(sectors);
    forall h | h in pool ensures h !in slabHosts {
      assert Eligible(sectors, state, h);
      forall i: nat | i < |sectors| ensures sectors[i].host != Some(h) {
        assert !OnHost(sectors, i, h);
      }
    }
    StartIsInvariant(pool, slabHosts, todo);
    RunKeepsInvariant(Start(pool, slabHosts), pool, slabHosts, todo, run);
    var s := After(Start(pool, slabHosts), todo, run);
    forall e | e in s.migrated ensures e.index in plan.indices && e.host in plan.candidates && !HostsSector(sectors, e.host) {
      var n: nat :| n < |s.migrated| && s.migrated[n] == e;
      assert EntryOk(s, slabHosts, n);
      assert Eligible(sectors, state, e.host);
    }
  }

  // The shards reported for a finished upload.
  function Shards(sectors: seq<Sector>, migrated: seq<Entry>): (r: seq<Shard>)
    requires forall e :: e in migrated ==> e.index < |sectors|
    ensures |r| == |migrated|
  {
    seq(|migrated|, n requires 0 <= n < |migrated| => Shard(sectors[migrated[n].index].root, migrated[n].host))
  }

  // MigrateSlab calls the repair a success when as many shards were migrated as were planned. That
  // count is enough: every planned sector then has its own new host, and applying the report leaves
  // nothing to migrate.
  lemma SuccessRepairsSlab(sectors: seq<Sector>, state: State, plan: Plan, pool: set<HostKey>, run: seq<Action>)
    requires DistinctRoots(sectors) && SoundPlan(sectors, state, plan)
    requires IsUpload(sectors, plan, pool, run)
    requires |Outcome(sectors, plan, pool, run).migrated| == |plan.indices|
    ensures var s := Outcome(sectors, plan, pool, run);
            && (forall e :: e in s.migrated ==> e.index < |sectors|)
            && forall i: nat :: i < |sectors| ==> !NeedsMigration(MigrateAll(sectors, Shards(sectors, s.migrated)), state, i)
  {
    UploadsAreSafe(sectors, state, plan, pool, run);
    var s := Outcome(sectors, plan, pool, run);
    var shards := Shards(sectors, s.migrated);
    forall n | 0 <= n < |s.migrated| ensures s.migrated[n].index in plan.indices && s.migrated[n].host in plan.candidates {
      assert s.migrated[n] in s.migrated;
    }
    forall i: nat | i in plan.indices ensures exists n :: 0 <= n < |s.migrated| && s.migrated[n].index == i {
      var found := seq(|s.migrated|, n requires 0 <= n < |s.migrated| => s.migrated[n].index);
      Pigeonhole(plan.indices, found, i);
    }
    CoveredIsFullSuccess(sectors, state, plan, s.migrated);
    forall i: nat | i < |sectors| ensures !NeedsMigration(MigrateAll(sectors, shards), state, i) {
      ReplanningAsksNothing(sectors, state, shards, i);
    }
  }

  ghost predicate CoversPlan(plan: Plan, migrated: seq<Entry>) {
    && (forall n :: 0 <= n < |migrated| ==> migrated[n].index in plan.indices && migrated[n].host in plan.candidates)
    && (forall m, n :: 0 <= m < n < |migrated| ==> migrated[m].index != migrated[n].index && migrated[m].host != migrated[n].host)
    && (forall i: nat :: i in plan.indices ==> exists n :: 0 <= n < |migrated| && migrated[n].index == i)
  }

  lemma ShardIsPlanned(sectors: seq<Sector>, state: State, plan: Plan, migrated: seq<Entry>, n: nat)
    requires SoundPlan(sectors, state, plan) && CoversPlan(plan, migrated) && n < |migrated|
    ensures migrated[n].index < |sectors| && Eligible(sectors, state, migrated[n].host)
    ensures IsBadRoot(sectors, state, sectors[migrated[n].index].root)
  {
  }

  lemma BadSectorIsCovered(sectors: seq<Sector>, state: State, plan: Plan, migrated: seq<Entry>, i: nat)
    requires SoundPlan(sectors, state, plan) && CoversPlan(plan, migrated) && i < |sectors| && NeedsMigration(sectors, state, i)
    requires forall e :: e in migrated ==> e.index < |sectors|
    ensures HasShard(Shards(sectors, migrated), sectors[i].root)
  {
    assert i in plan.indices;
    var n :| 0 <= n < |migrated| && migrated[n].index == i;
    assert Shards(sectors, migrated)[n] in Shards(sectors, migrated);
  }

  lemma ShardsAreDistinct(sectors: seq<Sector>, plan: Plan, migrated: seq<Entry>, s: Shard, u: Shard)
    requires DistinctRoots(sectors) && CoversPlan(plan, migrated) && forall e :: e in migrated ==> e.index < |sectors|
    requires s in Shards(sectors, migrated) && u in Shards(sectors, migrated) && s != u
    ensures s.host != u.host && s.root != u.root
  {
    var shards := Shards(sectors, migrated);
    var m :| 0 <= m < |shards| && shards[m] == s;
    var n :| 0 <= n < |shards| && shards[n] == u;
    assert m < n || n < m;
  }

  lemma CoveredIsFullSuccess(sectors: seq<Sector>, state: State, plan: Plan, migrated: seq<Entry>)
    requires DistinctRoots(sectors) && SoundPlan(sectors, state, plan) && CoversPlan(plan, migrated)
    requires forall e :: e in migrated ==> e.index < |sectors|
    ensures FullSuccess(sectors, state, Shards(sectors, migrated))
  {
    var shards := Shards(sectors, migrated);
    forall i: nat | i < |sectors| && NeedsMigration(sectors, state, i) ensures HasShard(shards, sectors[i].root) {
      BadSectorIsCovered(sectors, state, plan, migrated, i);
    }
    forall s | s in shards ensures IsBadRoot(sectors, state, s.root) && Eligible(sectors, state, s.host) {
      var n :| 0 <= n < |shards| && shards[n] == s;
      ShardIsPlanned(sectors, state, plan, migrated, n);
    }
    forall s, u | s in shards && u in shards && s != u ensures s.host != u.host && s.root != u.root {
      ShardsAreDistinct(sectors, plan, migrated, s, u);
    }
  }

  function Elements(s: seq<nat>): set<nat> {
    if s == [] then {} else Elements(s[..|s| - 1]) + {s[|s| - 1]}
  }

  lemma {:induction false} ElementsCount(s: seq<nat>)
    requires Distinct(s)
    ensures |Elements(s)| == |s|
    ensures forall x :: x in Elements(s) <==> x in s
  {
    if s != [] {
      var n := |s| - 1;
      ElementsCount(s[..n]);
      LastIsNew(s);
      forall x ensures x in s <==> x in s[..n] || x == s[n] {
        InParts(s, x);
      }
    }
  }

  lemma InParts(s: seq<nat>, x: nat)
    requires s != []
    ensures x in s <==> x in s[..|s| - 1] || x == s[|s| - 1]
  {
    assert s == s[..|s| - 1] + [s[|s| - 1]];
  }

  lemma LastIsNew(s: seq<nat>)
    requires s != [] && Distinct(s)
    ensures Distinct(s[..|s| - 1]) && s[|s| - 1] !in s[..|s| - 1]
  {
  }

  // As many distinct entries as planned indices, all of them planned, cover every index.
  lemma Pigeonhole(indices: seq<nat>, found: seq<nat>, i: nat)
    requires Distinct(indices) && Distinct(found) && |found| == |indices| && i in indices
    requires forall x :: x in found ==> x in indices
    ensures i in found
  {
    ElementsCount(indices);
    ElementsCount(found);
    if i !in found {
      SubsetSize(Elements(found), Elements(indices) - {i});
      assert false;
    }
  }
}
