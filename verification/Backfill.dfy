/**
 * Backfill of missing native ancestry over the live ingress:
 * crates/cordial-f1r3node-adapter/src/native_live_runner.rs.
 */
module Backfill {
  import opened BackfillRuns
  import opened BackfillWalk
  import opened Basics
  import opened ByteOrder
  import opened Ingress
  import opened Lace
  import opened Mirror
  import opened Native
  import opened Reachability
  import opened Sorting

  // ---- visiting a block ----

  /** Skip an indexed block, otherwise wait for its dependencies and fetch the missing ones. */
  method EnterBlock(q: Request, w: Walk, index: NativeIndex) returns (r: Result<Walk, BackfillError>)
    requires w.stack != [] && w.stack[|w.stack| - 1].Enter?
    ensures r == EnterTop(q, index.byWireHash.Keys, w)
  {
    var block, stack := w.stack[|w.stack| - 1].block, w.stack[..|w.stack| - 1];
    if |block.blockHash| != 32 { return Err(InvalidHash); }
    if block.blockHash in index.byWireHash { return Ok(w.(stack := stack)); }
    if block.blockHash in w.ancestry { return Err(Cycle(block.blockHash)); }
    if !AllHashes(Dependencies(block)) { return Err(InvalidHash); }
    r := PushDependencies(q, Turned(w, stack, block), SortedDependencies(block), index);
  }

  /** Fetch and push the dependencies that are not indexed, in descending order. */
  method PushDependencies(q: Request, start: Walk, deps: seq<Bytes>, index: NativeIndex)
    returns (r: Result<Walk, BackfillError>)
    ensures r == PushAll(q, index.byWireHash.Keys, deps, start)
  {
    var w, n := start, |deps|;
    assert deps[..n] == deps;
    while n > 0
      invariant 0 <= n <= |deps|
      invariant PushAll(q, index.byWireHash.Keys, deps[..n], w) == PushAll(q, index.byWireHash.Keys, deps, start)
    {
      var d := deps[n - 1];
      assert deps[..n][..n - 1] == deps[..n - 1];
      if d !in index.byWireHash {
        if d in w.ancestry { return Err(Cycle(d)); }
        if w.fetched >= q.max { return Err(BackfillLimit(q.max)); }
        var read := Read(q.source, d);
        if read.Err? { return Err(read.error); }
        w := Pushed(w, read.value);
      }
      n := n - 1;
    }
    r := Ok(w);
  }

  // ---- the walk over the ingress ----

  /** What the adapter and the database say about each block. */
  datatype Verdicts = Verdicts(adapterAccepts: NativeMessage -> bool, stores: NativeMessage -> bool)

  /** A block without a signature at height zero goes the way of the genesis block. */
  predicate AsGenesis(block: NativeMessage) {
    block.blockNumber == 0 && block.sig == []
  }

  /** The ingress takes the block in as it stands. */
  ghost predicate TakesIn(ingress: LiveIngress, v: Verdicts, block: NativeMessage)
    reads ingress, ingress.mirror, ingress.mirror.blocklace
  {
    && v.stores(block) && (v.adapterAccepts(block) || block.blockHash in ingress.native.byWireHash)
    && Admissible(ingress.mapper, block, ingress.native, AsGenesis(block), ingress.Dag().blocks, ingress.mirror.pending)
  }

  /** It does not, and `e` names the check that failed. */
  ghost predicate TurnsAway(ingress: LiveIngress, v: Verdicts, block: NativeMessage, e: NativeError)
    reads ingress, ingress.mirror, ingress.mirror.blocklace
  {
    !TakesIn(ingress, v, block) &&
    NativeRefusal(ingress.mapper, block, ingress.native, AsGenesis(block), ingress.Dag().blocks, ingress.mirror.pending,
                  v.adapterAccepts(block), v.stores(block), e)
  }

  /** A step that fails while a block is waiting on top fails because the ingress turns that block away. */
  ghost predicate Genuine(ingress: LiveIngress, v: Verdicts, w: Walk, e: BackfillError)
    reads ingress, ingress.mirror, ingress.mirror.blocklace
    requires w.stack != []
  {
    match Top(w)
    case Enter(_) => true
    case Apply(block) => e.IngressFailed? && TurnsAway(ingress, v, block, e.error)
  }

  /** Hand one block to the ingress; the adapter and the store may refuse it. */
  method ApplyBlock(ingress: LiveIngress, v: Verdicts, block: NativeMessage) returns (r: Result<bool, NativeError>)
    requires ingress.Valid() && Dependencies(block) <= ingress.native.byWireHash.Keys
    modifies ingress`native, ingress`accepted, ingress.mirror, ingress.mirror.blocklace
    ensures ingress.Valid() && IndexGrows(old(ingress.native), ingress.native)
    ensures r.Ok? <==> old(TakesIn(ingress, v, block))
    ensures r.Err? ==> ingress.native == old(ingress.native) && TurnsAway(ingress, v, block, r.error)
    ensures r.Ok? ==>
      && ingress.native.byWireHash.Keys == old(ingress.native).byWireHash.Keys + {block.blockHash}
      && (r.value <==> block.blockHash !in old(ingress.native).byWireHash)
  {
    ghost var index, was := ingress.native, ingress.accepted;
    var update; ghost var order;
    update, order := ingress.IngestNative(block, AsGenesis(block), v.adapterAccepts(block), v.stores(block));
    OutcomeGrows(ingress.mapper, block, index, was, update, order, ingress.native, ingress.accepted);
    if update.Err? {
      assert Inserted(old(ingress.Dag()), []) == old(ingress.Dag());
      return Err(update.error);
    }
    r := Ok(update.value.disposition == Applied);
  }

  /** Take one entry off the stack: visit the block, or take it in once everything it depends on is indexed. */
  method Step(ingress: LiveIngress, v: Verdicts, q: Request, w: Walk)
    returns (r: Result<Walk, BackfillError>, applied: nat)
    requires ingress.Valid() && w.stack != []
    requires Top(w).Apply? ==>
      && Dependencies(Top(w).block) <= ingress.native.byWireHash.Keys
      && Top(w).block.blockHash !in ingress.native.byWireHash
    modifies ingress`native, ingress`accepted, ingress.mirror, ingress.mirror.blocklace
    ensures ingress.Valid() && IndexGrows(old(ingress.native), ingress.native)
    ensures var s := State(w, old(ingress.native).byWireHash.Keys);
      && (r.Ok? ==> Steps(q, s, State(r.value, ingress.native.byWireHash.Keys)))
      && (r.Err? ==> Refuses(q, s, r.error) && ingress.native == old(ingress.native))
    ensures r.Err? ==> Genuine(ingress, v, w, r.error)
    ensures r.Ok? && Top(w).Apply? ==> old(TakesIn(ingress, v, Top(w).block))
    ensures r.Ok? ==> applied == if Top(w).Apply? then 1 else 0
  {
    applied := 0;
    match w.stack[|w.stack| - 1]
    case Enter(_) =>
      r := EnterBlock(q, w, ingress.native);
    case Apply(block) =>
      var step := ApplyBlock(ingress, v, block);
      if step.Err? { return Err(IngressFailed(step.error)), 0; }
      if step.value { applied := 1; }
      r := Ok(Finished(w, block));
  }

  /**
   * Bring in a block together with whatever native ancestry is missing. The steps taken are a run of the walk,
   * and the result is what that run ends with.
   */
  method IngestWithNativeBackfill(ingress: LiveIngress, v: Verdicts, q: Request)
    returns (r: Result<nat, BackfillError>, ghost run: seq<State>)
    requires ingress.Valid()
    modifies ingress`native, ingress`accepted, ingress.mirror, ingress.mirror.blocklace
    ensures ingress.Valid() && IndexGrows(old(ingress.native), ingress.native)
    ensures IsRun(q, old(ingress.native).byWireHash.Keys, run)
    ensures Last(run).indexed == ingress.native.byWireHash.Keys
    ensures r.Ok? ==>
      && Last(run).walk.stack == [] && r.value == Applications(run)
      && q.target.blockHash in ingress.native.byWireHash
    ensures r.Err? ==>
      && Refuses(q, Last(run), r.error) && Genuine(ingress, v, Last(run).walk, r.error)
      && Explains(q, old(ingress.native).byWireHash.Keys, ingress.native.byWireHash.Keys, r.error)
  {
    var w := Walk([Enter(q.target)], {}, 0);
    var applied := 0;
    ghost var was := ingress.native.byWireHash.Keys;
    run := [State(w, was)];
    while w.stack != []
      invariant ingress.Valid() && IndexGrows(old(ingress.native), ingress.native)
      invariant IsRun(q, was, run) && Last(run) == State(w, ingress.native.byWireHash.Keys)
      invariant applied == Applications(run)
      decreases 3 * q.max + 3 - |run|
    {
      ReadyToStep(q, was, run);
      var step, count := Step(ingress, v, q, w);
      if step.Err? {
        RefusedRun(q, was, run, step.error);
        return Err(step.error), run;
      }
      RunGrows(q, was, run, State(step.value, ingress.native.byWireHash.Keys));
      w, applied := step.value, applied + count;
      run := run + [State(w, ingress.native.byWireHash.Keys)];
    }
    ghost var log := FinishedRun(q, was, run);
    r := Ok(applied);
  }

  // ---- ancestry ----

  /** Who depends on whom among the accepted messages. */
  ghost function NativeGraph(accepted: map<Bytes, NativeMessage>): Graph<Bytes> {
    map h | h in accepted :: Dependencies(accepted[h])
  }

  /** The whole native ancestry of an indexed block is indexed, and its blocks are stored. */
  lemma AncestryIsIndexed(index: NativeIndex, accepted: map<Bytes, NativeMessage>, blocks: Blocks, h: Bytes, k: Bytes)
    requires NativeOk(index, accepted, blocks) && h in index.byWireHash && Reaches(NativeGraph(accepted), h, k)
    ensures k in index.byWireHash && index.byWireHash[k] in blocks
  {
    var g := NativeGraph(accepted);
    forall a, b | a in index.byWireHash.Keys && Edge(g, a, b) ensures b in index.byWireHash.Keys {
      assert AcceptedOk(index, accepted[a], a, blocks);
    }
    StaysInside(g, index.byWireHash.Keys, h, k);
    assert AcceptedOk(index, accepted[k], k, blocks);
  }

  // ---- height windows ----

  const I64_MAX: int := 0x7FFF_FFFF_FFFF_FFFF

  predicate EarlierOrEqual(a: NativeMessage, b: NativeMessage) {
    a.blockNumber < b.blockNumber || (a.blockNumber == b.blockNumber && BytesLe(a.blockHash, b.blockHash))
  }

  /** Why a window is refused before anything is ingested. */
  ghost predicate WindowRefusal(e: BackfillError, blocks: seq<NativeMessage>, start: int, end: int) {
    match e
    case InvalidWindow => start < 0 || end < start || end == I64_MAX
    case HeightOutsideWindow(actual) => !(start <= actual <= end) && exists b :: b in blocks && b.blockNumber == actual
    case MissingHeight(height) => start <= height <= end && !HasHeight(blocks, height)
    case _ => false
  }

  ghost predicate CompleteWindow(blocks: seq<NativeMessage>, start: int, end: int) {
    && 0 <= start <= end != I64_MAX
    && (forall b :: b in blocks ==> start <= b.blockNumber <= end)
    && (forall height :: start <= height <= end ==> HasHeight(blocks, height))
  }

  ghost predicate HasHeight(blocks: seq<NativeMessage>, height: int) {
    exists b :: b in blocks && b.blockNumber == height
  }

  /** The window must hold every height and nothing else. */
  method CheckWindow(blocks: seq<NativeMessage>, start: int, end: int) returns (r: Result<(), BackfillError>)
    ensures r.Ok? <==> CompleteWindow(blocks, start, end)
    ensures r.Err? ==> WindowRefusal(r.error, blocks, start, end)
  {
    if start < 0 || end < start || end == I64_MAX { return Err(InvalidWindow); }
    var present: set<int> := {};
    for i := 0 to |blocks|
      invariant forall b :: b in blocks[..i] ==> start <= b.blockNumber <= end
      invariant present == set b | b in blocks[..i] :: b.blockNumber
    {
      var height := blocks[i].blockNumber;
      if !(start <= height <= end) {
        assert blocks[i] in blocks;
        return Err(HeightOutsideWindow(height));
      }
      assert blocks[..i + 1] == blocks[..i] + [blocks[i]];
      present := present + {height};
    }
    assert blocks[..|blocks|] == blocks;
    assert forall h :: h in present <==> HasHeight(blocks, h);
    for height := start to end + 1
      invariant forall h :: start <= h < height ==> h in present
    {
      if height !in present { return Err(MissingHeight(height)); }
    }
    r := Ok(());
  }

  /** The run over one block that ended with this refusal, over the index as it is now. */
  ghost predicate Failed(ingress: LiveIngress, v: Verdicts, q: Request, run: seq<State>, e: BackfillError)
    reads ingress, ingress.mirror, ingress.mirror.blocklace
  {
    && run != [] && IsRun(q, run[0].indexed, run) && Last(run).indexed == ingress.native.byWireHash.Keys
    && Refuses(q, Last(run), e) && Genuine(ingress, v, Last(run).walk, e)
    && Explains(q, run[0].indexed, ingress.native.byWireHash.Keys, e)
  }

  /**
   * Ingest the blocks one after the other, each with its missing ancestry. A failure is that of the first block
   * that could not be brought in, at `stopped`, after `run`.
   */
  method IngestInOrder(ingress: LiveIngress, v: Verdicts, source: BlockSource, blocks: seq<NativeMessage>, max: nat)
    returns (r: Result<nat, BackfillError>, ghost stopped: nat, ghost run: seq<State>)
    requires ingress.Valid()
    modifies ingress`native, ingress`accepted, ingress.mirror, ingress.mirror.blocklace
    ensures ingress.Valid() && IndexGrows(old(ingress.native), ingress.native)
    ensures r.Ok? ==> AllIndexed(blocks, |blocks|, ingress.native)
    ensures r.Ok? ==> |ingress.native.byWireHash.Keys| == |old(ingress.native).byWireHash.Keys| + r.value
    ensures r.Err? ==>
      && stopped < |blocks| && AllIndexed(blocks, stopped, ingress.native)
      && Failed(ingress, v, Request(source, blocks[stopped], max), run, r.error)
  {
    var applied := 0;
    run := [];
    for i := 0 to |blocks|
      invariant ingress.Valid() && IndexGrows(old(ingress.native), ingress.native)
      invariant AllIndexed(blocks, i, ingress.native)
      invariant |ingress.native.byWireHash.Keys| == |old(ingress.native).byWireHash.Keys| + applied
    {
      ghost var before := ingress.native;
      var q := Request(source, blocks[i], max);
      var step;
      step, run := IngestWithNativeBackfill(ingress, v, q);
      stopped := i;
      if step.Err? {
        RunStarts(q, before.byWireHash.Keys, run);
        StillIndexed(blocks, i, before, ingress.native);
        return Err(step.error), stopped, run;
      }
      AppliedCount(q, before.byWireHash.Keys, run);
      MoreIndexed(blocks, i, before, ingress.native);
      applied := applied + step.value;
    }
    stopped := |blocks|;
    r := Ok(applied);
  }

  /** The first `n` blocks are indexed. */
  ghost predicate AllIndexed(blocks: seq<NativeMessage>, n: int, index: NativeIndex) {
    forall k :: 0 <= k < n && k < |blocks| ==> blocks[k].blockHash in index.byWireHash
  }

  lemma StillIndexed(blocks: seq<NativeMessage>, n: int, index: NativeIndex, index': NativeIndex)
    requires AllIndexed(blocks, n, index) && IndexGrows(index, index')
    ensures AllIndexed(blocks, n, index')
  {}

  lemma MoreIndexed(blocks: seq<NativeMessage>, n: int, index: NativeIndex, index': NativeIndex)
    requires AllIndexed(blocks, n, index) && IndexGrows(index, index') && 0 <= n < |blocks|
    requires blocks[n].blockHash in index'.byWireHash
    ensures AllIndexed(blocks, n + 1, index')
  {}

  /**
   * Ingest a complete window in height order, fetching what lies below it. A failure on a complete window is that
   * of the block at `stopped` in this order, all blocks below it being indexed.
   */
  method ReplayNativeHeightWindow(ingress: LiveIngress, v: Verdicts, source: BlockSource, blocks: seq<NativeMessage>,
                                  start: int, end: int, max: nat)
    returns (r: Result<nat, BackfillError>, ghost stopped: nat, ghost run: seq<State>)
    requires ingress.Valid()
    modifies ingress`native, ingress`accepted, ingress.mirror, ingress.mirror.blocklace
    ensures ingress.Valid() && IndexGrows(old(ingress.native), ingress.native)
    ensures !CompleteWindow(blocks, start, end) ==>
      && r.Err? && WindowRefusal(r.error, blocks, start, end)
      && ingress.native == old(ingress.native) && ingress.Dag() == old(ingress.Dag())
      && ingress.mirror.pending == old(ingress.mirror.pending)
    ensures CompleteWindow(blocks, start, end) && r.Err? ==>
      StoppedAt(ingress, v, source, blocks, max, stopped, run, r.error)
    ensures r.Ok? ==> AllIndexed(blocks, |blocks|, ingress.native)
    ensures r.Ok? ==> |ingress.native.byWireHash.Keys| == |old(ingress.native).byWireHash.Keys| + r.value
  {
    var window := CheckWindow(blocks, start, end);
    if window.Err? { return Err(window.error), 0, []; }
    r, stopped, run := IngestByHeight(ingress, v, source, blocks, max);
  }

  /** The block at `stopped`, by height and hash, failed; everything before it is indexed. */
  ghost predicate StoppedAt(ingress: LiveIngress, v: Verdicts, source: BlockSource, blocks: seq<NativeMessage>,
                            max: nat, stopped: nat, run: seq<State>, e: BackfillError)
    reads ingress, ingress.mirror, ingress.mirror.blocklace
  {
    var sorted := Sort(EarlierOrEqual, blocks);
    && stopped < |sorted| && AllIndexed(sorted, stopped, ingress.native)
    && Failed(ingress, v, Request(source, sorted[stopped], max), run, e)
  }

  method IngestByHeight(ingress: LiveIngress, v: Verdicts, source: BlockSource, blocks: seq<NativeMessage>, max: nat)
    returns (r: Result<nat, BackfillError>, ghost stopped: nat, ghost run: seq<State>)
    requires ingress.Valid()
    modifies ingress`native, ingress`accepted, ingress.mirror, ingress.mirror.blocklace
    ensures ingress.Valid() && IndexGrows(old(ingress.native), ingress.native)
    ensures r.Ok? ==> AllIndexed(blocks, |blocks|, ingress.native)
    ensures r.Ok? ==> |ingress.native.byWireHash.Keys| == |old(ingress.native).byWireHash.Keys| + r.value
    ensures r.Err? ==> StoppedAt(ingress, v, source, blocks, max, stopped, run, r.error)
  {
    r, stopped, run := IngestInOrder(ingress, v, source, Sort(EarlierOrEqual, blocks), max);
    if r.Ok? { SortedIndexed(blocks, ingress.native); }
  }

  lemma SortedIndexed(blocks: seq<NativeMessage>, index: NativeIndex)
    requires var sorted := Sort(EarlierOrEqual, blocks); AllIndexed(sorted, |sorted|, index)
    ensures AllIndexed(blocks, |blocks|, index)
  {
    var sorted := Sort(EarlierOrEqual, blocks);
    SortKeeps(EarlierOrEqual, blocks);
    forall k | 0 <= k < |blocks| ensures blocks[k].blockHash in index.byWireHash {
      assert blocks[k] in sorted;
    }
  }
}
