// What the racing downloads of the chunks give the recovery: recoverShards and recoverChunk of
// slabs/downloads.go put together.
module ChunkAnswers {
  import opened Common
  import opened ChunkRace
  import R = Recovery

  // One chunk: too few usable hosts to start, or a race. slabHosts maps the candidates to the shard each
  // of them stores.
  datatype ChunkRun = TooFewHosts | Raced(slabHosts: map<Host, nat>, start: State, run: seq<Action>)

  ghost predicate IsChunkRun(sectors: seq<HostedRoot>, k: nat, c: ChunkRun) {
    c.Raced? ==>
      && (forall h :: h in c.slabHosts ==> FirstOn(sectors, h, c.slabHosts[h]))
      && IsStart(c.start, c.slabHosts.Keys, k) && IsRun(c.start, k, c.run) && After(c.start, k, c.run).pc.Finished?
  }

  ghost function ShardsOf(slabHosts: map<Host, nat>, hosts: set<Host>): set<nat>
    requires hosts <= slabHosts.Keys
  {
    set h | h in hosts :: slabHosts[h]
  }

  // The chunk's race ended with enough columns.
  ghost predicate Succeeded(sectors: seq<HostedRoot>, k: nat, c: ChunkRun) {
    IsChunkRun(sectors, k, c) && c.Raced? && After(c.start, k, c.run).pc == Finished(true)
  }

  lemma ColumnsAreCandidates(k: nat, slabHosts: map<Host, nat>, start: State, run: seq<Action>)
    requires IsStart(start, slabHosts.Keys, k) && IsRun(start, k, run)
    ensures Columns(After(start, k, run)) <= slabHosts.Keys
  {
    StartIsInvariant(start, slabHosts.Keys, k);
    RunKeepsInvariant(start, slabHosts.Keys, k, run);
    var t := After(start, k, run);
    forall h | h in Columns(t) ensures h in slabHosts.Keys {
      assert ReservationOk(t, h);
    }
  }

  // The shards whose columns the chunk's race filled.
  ghost function Answered(sectors: seq<HostedRoot>, k: nat, c: ChunkRun): set<nat>
    requires IsChunkRun(sectors, k, c)
  {
    if c.TooFewHosts? then {}
    else
      ColumnsAreCandidates(k, c.slabHosts, c.start, c.run);
      ShardsOf(c.slabHosts, Columns(After(c.start, k, c.run)))
  }

  // The race of a chunk succeeds exactly when the shards it answered are enough to reconstruct.
  lemma RaceAnswersEnough(sectors: seq<HostedRoot>, k: nat, c: ChunkRun)
    requires k > 0 && IsChunkRun(sectors, k, c)
    ensures Succeeded(sectors, k, c) <==> |set i: nat | i < |sectors| && i in Answered(sectors, k, c)| >= k
  {
    var shards := Answered(sectors, k, c);
    if c.Raced? {
      var t := After(c.start, k, c.run);
      ColumnsAreCandidates(k, c.slabHosts, c.start, c.run);
      ReturnIsClean(c.start, c.slabHosts.Keys, k, c.run);
      ColumnsAreDistinct(sectors, c.slabHosts, Columns(t));
      forall i | i in shards ensures i < |sectors| {
        var h :| h in Columns(t) && c.slabHosts[h] == i;
      }
      assert (set i: nat | i < |sectors| && i in shards) == shards;
    } else {
      assert (set i: nat | i < |sectors| && i in shards) == {};
    }
  }

  // answered gives for every chunk the shards its race filled.
  ghost predicate AnsweredBy(sectors: seq<HostedRoot>, k: nat, chunks: nat -> ChunkRun, answered: nat -> set<nat>, c: nat) {
    IsChunkRun(sectors, k, chunks(c)) && answered(c) == Answered(sectors, k, chunks(c))
  }

  // The recovery of a whole slab, chunk by chunk over their races: it succeeds exactly when every race
  // did and the context has not ended by then, and then every required shard is byte for byte what the hosts stored.
  method RecoverByRaces(slab: R.Slab, sectors: seq<HostedRoot>, indices: set<nat>, chunkSize: int,
                        ghost chunks: nat -> ChunkRun, answered: nat -> set<nat>, cancelled: bool)
    returns (ok: bool, shards: seq<array?<R.Byte>>)
    requires R.Genuine(slab) && |sectors| == slab.code.total && slab.code.minShards > 0
    requires forall i :: i in indices ==> i < slab.code.total
    requires forall c: nat {:trigger AnsweredBy(sectors, slab.code.minShards, chunks, answered, c)} ::
      AnsweredBy(sectors, slab.code.minShards, chunks, answered, c)
    ensures ok <==> !cancelled && forall c: nat {:trigger chunks(c)} :: c < R.NumChunks(R.ChunkSize(chunkSize)) ==>
      Succeeded(sectors, slab.code.minShards, chunks(c))
    ensures ok ==> |shards| == slab.code.total && forall i :: 0 <= i < |shards| ==> (shards[i] != null <==> i in indices)
    ensures ok ==> forall i :: 0 <= i < |shards| && shards[i] != null ==> shards[i][..] == slab.stored[i]
  {
    ok, shards := R.RecoverForUpload(slab, indices, chunkSize, answered, cancelled);
    ghost var k := slab.code.minShards;
    forall c: nat ensures Succeeded(sectors, k, chunks(c)) <==> |set i: nat | i < slab.code.total && i in answered(c)| >= k {
      assert AnsweredBy(sectors, k, chunks, answered, c);
      RaceAnswersEnough(sectors, k, chunks(c));
    }
  }
}
