/** The live ingress of crates/cordial-f1r3node-adapter/src/live_ingress.rs. */
module Ingress {
  import opened Basics
  import opened Boundaries
  import opened Dags
  import opened Lace
  import opened Mirror
  import opened Native
  import opened OrderedOutput
  import opened PorActivation
  import opened PrefixReuse
  import opened Rounds
  import opened WeightProjection

  datatype Fingerprint = Fingerprint(generation: nat, mirrored: nat, wavelength: nat, weights: Bonds)

  datatype Reuse = Reuse(
    fingerprint: Fingerprint,
    anchor: Identity,
    anchorWaveEnd: nat,
    observedGeneration: nat,
    observedMirrored: nat,
    safeAppend: bool)

  datatype EpochRecord = EpochRecord(checkpointHash: Hash, oldWeights: Bonds, newWeights: Bonds, tag: nat)

  /** Replay of a committed epoch over the retained lace. */
  type EpochReplay = (EpochRecord, Dag, set<Bytes>, Hash) -> Option<OrderedFinalizedOutput>

  datatype PollError = OrderingFailed | PrefixViolation | EpochReplayFailed
  datatype IngestError = Adapter | Rejected(InsertError)
  // ---- the reuse record ----

  /** The record a publication leaves behind. */
  function NewReuse(d: Dag, fp: Fingerprint, output: OrderedFinalizedOutput): Option<Reuse> {
    if output.anchor.None? then None
    else match AnchorWaveEnd(d, output.anchor.value, fp.wavelength)
      case None => None
      case Some(end) => Some(Reuse(fp, output.anchor.value, end, fp.generation, fp.mirrored, d.trusted == map[]))
  }

  function Invalidated(reuse: Option<Reuse>): Option<Reuse> {
    match reuse
    case None => None
    case Some(r) => Some(r.(safeAppend := false))
  }

  /** What a strict ingest does to the record. */
  function AfterStrict(reuse: Option<Reuse>, generation: nat, mirrored: nat, update: MirrorUpdate, d': Dag,
                       generation': nat, id: Identity): Option<Reuse>
  {
    match reuse
    case None => None
    case Some(r) =>
      Some(Observed(r, generation, mirrored, update, |d'.blocks|, generation', Deeper(d', id, r.anchorWaveEnd)))
  }

  /** A record stays safe over one tracked insertion past its wave, and over a duplicate. */
  function Observed(r: Reuse, generation: nat, mirrored: nat, update: MirrorUpdate, mirrored': nat, generation': nat,
                    deeper: bool): Reuse
  {
    if update.disposition == Duplicate then r
    else if update.disposition != Applied || r.observedGeneration != generation || r.observedMirrored != mirrored
    then r.(safeAppend := false)
    else if update.released == 0 && generation' == generation + 1 && mirrored' == mirrored + 1 && deeper
    then r.(observedGeneration := generation', observedMirrored := mirrored')
    else r.(safeAppend := false)
  }

  /** The guards that must all pass before the saved prefix is extended. */
  predicate MayExtend(r: Reuse, fp: Fingerprint, d: Dag) {
    && r.safeAppend
    && r.observedGeneration == fp.generation && r.observedMirrored == fp.mirrored
    && r.fingerprint.generation != fp.generation && r.fingerprint.mirrored < fp.mirrored
    && r.fingerprint.wavelength == fp.wavelength && r.fingerprint.weights == fp.weights
    && d.trusted == map[]
  }

  // ---- soundness of the cache ----

  /** A safe record with a current stamp means that the lace grew from the saved one strictly past the anchor's wave. */
  ghost predicate RecordOk(reuse: Option<Reuse>, saved: Dag, d: Dag, generation: nat) {
    match reuse
    case None => true
    case Some(r) =>
      && r.observedGeneration <= generation
      && (r.safeAppend && r.observedGeneration == generation ==>
          GrownPast(saved, d, r.anchor, r.fingerprint.wavelength, r.anchorWaveEnd))
  }

  /** Outside an epoch the record belongs to the published output. */
  ghost predicate RecordPublished(reuse: Option<Reuse>, published: Option<OrderedFinalizedOutput>) {
    match reuse
    case None => true
    case Some(r) =>
      published.Some? && published.value.anchor == Some(r.anchor) && Labelled(r.fingerprint, published.value)
  }

  /** ... which is the ordering of the saved lace. */
  ghost predicate RecordOrdered(o: Ordering, reuse: Option<Reuse>, saved: Dag,
                                published: Option<OrderedFinalizedOutput>)
  {
    match reuse
    case None => true
    case Some(r) =>
      published.Some? &&
      Orders(o, saved, r.fingerprint.weights, r.fingerprint.wavelength, published.value.blocks, Some(r.anchor))
  }

  /** The consensus metadata of an output is that of the fingerprint. */
  predicate Labelled(fp: Fingerprint, output: OrderedFinalizedOutput) {
    output.wavelength == fp.wavelength && output.bondCount == |fp.weights| && output.mirrored == fp.mirrored
  }

  ghost predicate FingerprintOk(o: Ordering, fp: Option<Fingerprint>, published: Option<OrderedFinalizedOutput>,
                                d: Dag, generation: nat)
  {
    fp.Some? ==>
      && published.Some? && fp.value.generation <= generation && Labelled(fp.value, published.value)
      && (fp.value.generation == generation ==>
          Orders(o, d, fp.value.weights, fp.value.wavelength, published.value.blocks, published.value.anchor))
  }

  /** A strict ingest keeps the record sound, tracked or not. */
  lemma {:induction false} StrictKeepsRecord(reuse: Option<Reuse>, saved: Dag, d: Dag, generation: nat,
                                             block: Block, update: MirrorUpdate, order: seq<Block>)
    requires RecordOk(reuse, saved, d, generation) && StrictOrder(d, order)
    requires update.disposition != Applied ==> order == []
    requires update.disposition == Applied ==> order != [] && order[0] == block && update.released == |order| - 1
    ensures var d', generation' := Inserted(d, order), generation + |order|;
      RecordOk(AfterStrict(reuse, generation, |d.blocks|, update, d', generation', block.identity),
               saved, d', generation')
  {
    if reuse.Some? {
      var r, d' := reuse.value, Inserted(d, order);
      var deeper := Deeper(d', block.identity, r.anchorWaveEnd);
      if deeper && |order| == 1 && ExtendsPast(saved, d, r.anchorWaveEnd) {
        OneInserted(d, block, order);
        ExtendOnce(saved, d, r.anchorWaveEnd, block);
      }
      ObservedStaysSound(r, saved, d, generation, update, d', generation + |order|, deeper);
    }
  }

  lemma OneInserted(d: Dag, block: Block, order: seq<Block>)
    requires order == [block] && StrictOrder(d, order)
    ensures Inserted(d, order) == Committed(d, block.identity, block.content) && Insertable(d.blocks, block)
  {
    assert order[..0] == [] && Inserted(d, []) == d;
  }

  lemma ObservedStaysSound(r: Reuse, saved: Dag, d: Dag, generation: nat, update: MirrorUpdate,
                           d': Dag, generation': nat, deeper: bool)
    requires RecordOk(Some(r), saved, d, generation)
    requires generation <= generation' && (generation' == generation ==> d' == d)
    requires update.disposition == Duplicate ==> generation' == generation
    requires deeper && generation' == generation + 1 && ExtendsPast(saved, d, r.anchorWaveEnd) ==>
      ExtendsPast(saved, d', r.anchorWaveEnd)
    ensures var r' := Observed(r, generation, |d.blocks|, update, |d'.blocks|, generation', deeper);
      RecordOk(Some(r'), saved, d', generation')
  {}

  /** Growth that nobody reports moves the generation past every saved stamp. */
  lemma UntrackedKeepsRecord(reuse: Option<Reuse>, saved: Dag, d: Dag, generation: nat, d': Dag, generation': nat)
    requires RecordOk(reuse, saved, d, generation)
    requires (d' == d && generation' == generation) || generation' > generation
    ensures RecordOk(reuse, saved, d', generation')
  {}

  // ---- the native side ----

  /** Accepted wire hashes: inverse maps, stored identities, and dependencies accepted before them. */
  ghost predicate NativeOk(index: NativeIndex, accepted: map<Bytes, NativeMessage>, blocks: Blocks) {
    && Inverse(index) && accepted.Keys == index.byWireHash.Keys
    && forall h :: h in accepted ==> AcceptedOk(index, accepted[h], h, blocks)
  }

  ghost predicate AcceptedOk(index: NativeIndex, msg: NativeMessage, h: Bytes, blocks: Blocks) {
    && msg.blockHash == h && h in index.byWireHash && index.byWireHash[h] in blocks
    && Dependencies(msg) <= index.byWireHash.Keys
    && blocks[index.byWireHash[h]].preds == Images(index, Dependencies(msg))
  }

  /** The accepted identities of a set of wire hashes. */
  function Images(index: NativeIndex, hashes: set<Bytes>): set<Identity> {
    set h | h in hashes && h in index.byWireHash :: index.byWireHash[h]
  }

  lemma ImagesStable(index: NativeIndex, index': NativeIndex, hashes: set<Bytes>)
    requires hashes <= index.byWireHash.Keys
    requires forall h :: h in index.byWireHash ==> h in index'.byWireHash && index'.byWireHash[h] == index.byWireHash[h]
    ensures Images(index', hashes) == Images(index, hashes)
  {}

  lemma NativeSurvivesGrowth(index: NativeIndex, accepted: map<Bytes, NativeMessage>, blocks: Blocks, blocks': Blocks)
    requires NativeOk(index, accepted, blocks)
    requires forall id :: id in blocks ==> id in blocks' && blocks'[id] == blocks[id]
    ensures NativeOk(index, accepted, blocks')
  {
    forall h | h in accepted
      ensures AcceptedOk(index, accepted[h], h, blocks')
    {
      assert AcceptedOk(index, accepted[h], h, blocks);
    }
  }

  ghost predicate IndexGrows(index: NativeIndex, index': NativeIndex) {
    forall h :: h in index.byWireHash ==> h in index'.byWireHash && index'.byWireHash[h] == index.byWireHash[h]
  }

  lemma RecordedGrows(index: NativeIndex, v: Validated)
    requires v.wireHash !in index.byWireHash
    ensures IndexGrows(index, Recorded(index, v))
    ensures Recorded(index, v).byWireHash.Keys == index.byWireHash.Keys + {v.wireHash}
  {}

  lemma AcceptedSurvives(index: NativeIndex, index': NativeIndex, msg: NativeMessage, h: Bytes, blocks: Blocks)
    requires AcceptedOk(index, msg, h, blocks) && IndexGrows(index, index')
    ensures AcceptedOk(index', msg, h, blocks)
  {
    ImagesStable(index, index', Dependencies(msg));
  }

  lemma {:induction false} NativeAccepts(mapper: Mapper, index: NativeIndex, accepted: map<Bytes, NativeMessage>,
                                         blocks: Blocks, v: Validated, msg: NativeMessage)
    requires NativeOk(index, accepted, blocks) && CheckCandidate(mapper, index, v).None?
    requires v.wireHash !in index.byWireHash
    requires msg.blockHash == v.wireHash && Dependencies(msg) <= index.byWireHash.Keys
    requires v.block.identity in blocks && blocks[v.block.identity] == v.block.content
    requires v.block.content.preds == Images(index, Dependencies(msg))
    ensures NativeOk(Recorded(index, v), accepted[msg.blockHash := msg], blocks)
  {
    RecordedIsInverse(mapper, index, v);
    NativeEntries(index, Recorded(index, v), accepted, blocks, msg, v.block);
  }

  lemma NativeEntries(index: NativeIndex, index': NativeIndex, accepted: map<Bytes, NativeMessage>, blocks: Blocks,
                      msg: NativeMessage, block: Block)
    requires forall h :: h in accepted ==> AcceptedOk(index, accepted[h], h, blocks)
    requires IndexGrows(index, index') && Dependencies(msg) <= index.byWireHash.Keys
    requires msg.blockHash in index'.byWireHash && index'.byWireHash[msg.blockHash] == block.identity
    requires block.identity in blocks && blocks[block.identity] == block.content
    requires block.content.preds == Images(index, Dependencies(msg))
    ensures var accepted' := accepted[msg.blockHash := msg];
      forall h :: h in accepted' ==> AcceptedOk(index', accepted'[h], h, blocks)
  {
    var accepted' := accepted[msg.blockHash := msg];
    ImagesStable(index, index', Dependencies(msg));
    forall h | h in accepted' ensures AcceptedOk(index', accepted'[h], h, blocks) {
      if h != msg.blockHash { AcceptedSurvives(index, index', accepted[h], h, blocks); }
    }
  }

  /** A publication over the current lace leaves a sound record ... */
  lemma {:induction false} PublishKeepsRecord(d: Dag, fp: Fingerprint, output: OrderedFinalizedOutput)
    requires OnePerConsensus(d.blocks) && Covers(d)
    ensures RecordOk(NewReuse(d, fp, output), d, d, fp.generation)
  {
    var reuse := NewReuse(d, fp, output);
    if reuse.Some? && reuse.value.safeAppend {
      NoBoundaryIsFullyResolved(d);
      ExtendNone(d, reuse.value.anchorWaveEnd);
    }
  }

  /** ... and, when the output is the ordering of the lace, a sound fingerprint and an ordered record. */
  lemma PublishKeepsOrder(o: Ordering, d: Dag, fp: Fingerprint, output: OrderedFinalizedOutput)
    requires Orders(o, d, fp.weights, fp.wavelength, output.blocks, output.anchor) && Labelled(fp, output)
    ensures RecordOrdered(o, NewReuse(d, fp, output), d, Some(output))
    ensures FingerprintOk(o, Some(fp), Some(output), d, fp.generation)
  {}

  // ---- admission of a native message ----

  /** The mapper accepts the message against the index. */
  predicate WellFormed(mapper: Mapper, msg: NativeMessage, index: NativeIndex, genesis: bool) {
    && msg.blockHash == mapper.wireHash(msg) && mapper.translate(msg).Some?
    && if genesis then GenesisShape(msg)
       else
         && mapper.signatureOk(msg)
         && forall h :: h in Dependencies(msg) ==> |h| == 32 && ParentRefusal(msg, index, h).None?
  }

  /** The Cordial block a well-formed message stands for. */
  function Candidate(mapper: Mapper, msg: NativeMessage, index: NativeIndex): Validated
    requires mapper.translate(msg).Some?
  {
    Validated(Translated(mapper, msg, mapper.translate(msg).value, Images(index, Dependencies(msg))),
      mapper.wireHash(msg))
  }

  /** The checks before the adapter sees the block. */
  predicate Passes(mapper: Mapper, msg: NativeMessage, index: NativeIndex, genesis: bool, blocks: Blocks,
                   pending: map<Identity, Block>)
  {
    WellFormed(mapper, msg, index, genesis) &&
    var v := Candidate(mapper, msg, index);
    && CheckCandidate(mapper, index, v).None?
    && (v.wireHash in index.byWireHash ||
      ((genesis ==> blocks == map[]) && !IsKnown(blocks, pending, v.block.identity)))
  }

  /** ... and what, besides the adapter and the store, decides whether a native message is taken in. */
  predicate Admissible(mapper: Mapper, msg: NativeMessage, index: NativeIndex, genesis: bool, blocks: Blocks,
                       pending: map<Identity, Block>)
  {
    && Passes(mapper, msg, index, genesis, blocks, pending)
    && (msg.blockHash in index.byWireHash || !Clashes(blocks, pending, Candidate(mapper, msg, index).block.identity))
  }

  /** What each refusal of a native message says: the first check that failed, in this order. */
  ghost predicate NativeRefusal(mapper: Mapper, msg: NativeMessage, index: NativeIndex, genesis: bool, blocks: Blocks,
                                pending: map<Identity, Block>, adapterAccepts: bool, stores: bool, e: NativeError)
  {
    match e
    case AdapterRejected =>
      Passes(mapper, msg, index, genesis, blocks, pending) && msg.blockHash !in index.byWireHash && !adapterAccepts
    case PersistenceFailed =>
      && Passes(mapper, msg, index, genesis, blocks, pending)
      && (msg.blockHash in index.byWireHash || adapterAccepts) && !stores
    case MirrorRejected =>
      && Passes(mapper, msg, index, genesis, blocks, pending) && msg.blockHash !in index.byWireHash
      && adapterAccepts && stores && Clashes(blocks, pending, Candidate(mapper, msg, index).block.identity)
    case _ => !Passes(mapper, msg, index, genesis, blocks, pending) && Blames(e, msg, index)
  }

  /** A waiting block with the same hash and creator but another signature. */
  ghost predicate PendingVariant(pending: map<Identity, Block>, id: Identity) {
    exists k :: k in pending && SameConsensus(k, id)
  }

  /** A stored variant of an unsigned identity would make it known, so only a waiting one can clash with it. */
  lemma {:induction false} OnlyWaitingClashes(blocks: Blocks, pending: map<Identity, Block>, id: Identity)
    requires OnePerConsensus(blocks) && id.signature == [] && Clashes(blocks, pending, id)
    ensures PendingVariant(pending, id)
  {
    ResolveWhenUnique(blocks, id);
  }

  /** A mapper that accepts everything and gives every block the same hash. */
  const LENIENT: Mapper := Mapper(
    (m: NativeMessage) => seq(32, _ => 0), (m: NativeMessage) => true, (m: NativeMessage) => Some([]),
    (creator: Bytes, content: Content) => seq(32, _ => 1))

  const BARE_GENESIS := NativeMessage(seq(32, _ => 0), [], [], 0, [], [], [], 0, [])

  const SIGNED_VARIANT := Block(Identity(seq(32, _ => 1), [], [1]), Content([], {Identity(seq(32, _ => 2), [], [])}))

  /** A signed variant that waits for a predecessor blocks the genesis message, which passes every other check. */
  lemma WaitingVariantBlocksGenesis()
    ensures var pending := map[SIGNED_VARIANT.identity := SIGNED_VARIANT];
      && KeptApart(map[], pending) && NoneReady(map[], pending)
      && Passes(LENIENT, BARE_GENESIS, EMPTY_INDEX, true, map[], pending)
      && !Admissible(LENIENT, BARE_GENESIS, EMPTY_INDEX, true, map[], pending)
  {
    var pending := map[SIGNED_VARIANT.identity := SIGNED_VARIANT];
    GenesisHasNoDependencies(BARE_GENESIS);
    assert SameConsensus(SIGNED_VARIANT.identity, Candidate(LENIENT, BARE_GENESIS, EMPTY_INDEX).block.identity);
    assert Identity(seq(32, _ => 2), [], []) in Unresolved(map[], SIGNED_VARIANT.content.preds);
  }

  /** What taking in a native message does: nothing, or one new block and its index entry. */
  ghost predicate NativeOutcome(mapper: Mapper, msg: NativeMessage, index: NativeIndex,
                                accepted: map<Bytes, NativeMessage>,
                                r: Result<MirrorUpdate, NativeError>, order: seq<Block>,
                                index': NativeIndex, accepted': map<Bytes, NativeMessage>)
  {
    match r
    case Err(_) => order == [] && index' == index && accepted' == accepted
    case Ok(update) =>
      if msg.blockHash in index.byWireHash then
        update == MirrorUpdate(Duplicate, 0) && order == [] && index' == index && accepted' == accepted
      else
        && mapper.translate(msg).Some? && mapper.wireHash(msg) == msg.blockHash
        && order != [] && order[0] == Candidate(mapper, msg, index).block
        && update == MirrorUpdate(Applied, |order| - 1)
        && index' == Recorded(index, Candidate(mapper, msg, index)) && accepted' == accepted[msg.blockHash := msg]
  }

  /** The index never forgets, and a message that was taken in is indexed. */
  lemma OutcomeGrows(mapper: Mapper, msg: NativeMessage, index: NativeIndex, accepted: map<Bytes, NativeMessage>,
                     r: Result<MirrorUpdate, NativeError>, order: seq<Block>,
                     index': NativeIndex, accepted': map<Bytes, NativeMessage>)
    requires NativeOutcome(mapper, msg, index, accepted, r, order, index', accepted')
    ensures IndexGrows(index, index')
    ensures r.Ok? ==> index'.byWireHash.Keys == index.byWireHash.Keys + {msg.blockHash}
    ensures r.Ok? ==> (r.value.disposition == Applied <==> msg.blockHash !in index.byWireHash)
  {
    if r.Ok? && msg.blockHash !in index.byWireHash { RecordedGrows(index, Candidate(mapper, msg, index)); }
  }

  lemma GenesisHasNoDependencies(msg: NativeMessage)
    requires GenesisShape(msg)
    ensures Dependencies(msg) == {}
  {}

  /** Accepted identities are stored, so the predecessors of a candidate always resolve. */
  lemma CandidateIsAvailable(index: NativeIndex, accepted: map<Bytes, NativeMessage>, blocks: Blocks,
                             hashes: set<Bytes>)
    requires NativeOk(index, accepted, blocks)
    ensures Unresolved(blocks, Images(index, hashes)) == {}
  {
    forall p | p in Images(index, hashes) ensures Resolves(blocks, p) {
      var h :| h in hashes && h in index.byWireHash && index.byWireHash[h] == p;
      assert AcceptedOk(index, accepted[h], h, blocks);
      assert ResolvesTo(blocks, p, p);
    }
  }

  /** Both translations give the candidate. */
  lemma CandidateIs(mapper: Mapper, msg: NativeMessage, index: NativeIndex, genesis: bool)
    requires WellFormed(mapper, msg, index, genesis)
    ensures var preds := Images(index, Dependencies(msg));
      && Candidate(mapper, msg, index) ==
        Validated(Translated(mapper, msg, mapper.translate(msg).value, preds), msg.blockHash)
      && (genesis ==> preds == {})
      && (!genesis ==> forall h :: h in Dependencies(msg) ==> h in index.byWireHash)
      && (!genesis ==> preds == set h | h in Dependencies(msg) :: index.byWireHash[h])
  {
    var deps := Dependencies(msg);
    if genesis {
      GenesisHasNoDependencies(msg);
    } else {
      forall h | h in deps ensures h in index.byWireHash { assert ParentRefusal(msg, index, h).None?; }
      assert Images(index, deps) == set h | h in deps :: index.byWireHash[h];
    }
  }

  lemma {:induction false} GrowthKeepsCheckpoint(d: Dag, order: seq<Block>)
    ensures Inserted(d, order).checkpoint == d.checkpoint
  {
    if order != [] { GrowthKeepsCheckpoint(d, order[..|order| - 1]); }
  }

  lemma {:induction false} FirstStays(d: Dag, order: seq<Block>)
    requires StrictOrder(d, order) && order != []
    ensures var b, d' := order[0], Inserted(d, order); b.identity in d'.blocks && d'.blocks[b.identity] == b.content
  {
    if |order| > 1 { FirstStays(d, order[..|order| - 1]); }
  }

  lemma IndexedIsStored(index: NativeIndex, accepted: map<Bytes, NativeMessage>, blocks: Blocks, h: Bytes)
    requires NativeOk(index, accepted, blocks) && h in index.byWireHash
    ensures index.byWireHash[h] in blocks && Resolves(blocks, index.byWireHash[h])
  {
    assert AcceptedOk(index, accepted[h], h, blocks);
    assert ResolvesTo(blocks, index.byWireHash[h], index.byWireHash[h]);
  }

  // ---- the invariant ----

  /** The parts of the ingress state that the caches and the native index speak about. */
  datatype View = View(
    d: Dag,
    generation: nat,
    native: NativeIndex,
    fingerprint: Option<Fingerprint>,
    reuse: Option<Reuse>,
    published: Option<OrderedFinalizedOutput>,
    futureEpoch: Option<EpochRecord>)

  /** Under the helper's contract both caches describe orderings whenever their stamps say so. */
  ghost predicate CachesSound(o: Ordering, v: View, saved: Dag) {
    SuffixContract(o) && v.futureEpoch == None ==>
      && FingerprintOk(o, v.fingerprint, v.published, v.d, v.generation)
      && RecordOrdered(o, v.reuse, saved, v.published)
  }

  /** What holds at all times; only the last line depends on the ordering functions. */
  ghost predicate StateOk(o: Ordering, v: View, saved: Dag, accepted: map<Bytes, NativeMessage>) {
    match v
    case View(d, generation, native, _, reuse, published, epoch) =>
      && OnePerConsensus(d.blocks) && d.checkpoint == None && Covers(d)
      && NativeOk(native, accepted, d.blocks)
      && RecordOk(reuse, saved, d, generation)
      && (epoch == None ==> RecordPublished(reuse, published))
      && CachesSound(o, v, saved)
  }

  /**
   * What the guards establish: the blocks up to the anchor's wave, with their contents and depths, the
   * weights and the wavelength are those of the saved output.
   */
  ghost predicate Unchanged(saved: Dag, d: Dag, r: Reuse, fp: Fingerprint) {
    && GrownPast(saved, d, r.anchor, fp.wavelength, r.anchorWaveEnd)
    && (forall id :: Shallow(d, id, r.anchorWaveEnd) <==> Shallow(saved, id, r.anchorWaveEnd))
    && (forall id :: id in saved.blocks ==>
        id in d.blocks && d.blocks[id] == saved.blocks[id] && Depth(d, id) == Depth(saved, id))
    && fp.weights == r.fingerprint.weights && fp.wavelength == r.fingerprint.wavelength
  }

  /** In every valid state passing the guards means exactly that, whatever the ordering functions do. */
  lemma {:induction false} GuardsKeepShallow(o: Ordering, v: View, saved: Dag, accepted: map<Bytes, NativeMessage>,
                                             fp: Fingerprint)
    requires StateOk(o, v, saved, accepted) && v.reuse.Some?
    requires fp.generation == v.generation && MayExtend(v.reuse.value, fp, v.d)
    ensures Unchanged(saved, v.d, v.reuse.value, fp)
    ensures v.futureEpoch == None ==>
      && v.published.Some? && v.published.value.anchor == Some(v.reuse.value.anchor)
      && v.published.value.wavelength == fp.wavelength && v.published.value.bondCount == |fp.weights|
  {
    ExtendsPastKeepsShallow(saved, v.d, v.reuse.value.anchorWaveEnd);
  }

  /** Under the helper's contract it also discharges the helper's whole obligation. */
  lemma GuardsJustifyExtension(o: Ordering, v: View, saved: Dag, accepted: map<Bytes, NativeMessage>, fp: Fingerprint)
    requires StateOk(o, v, saved, accepted) && v.reuse.Some? && v.published.Some?
    requires fp.generation == v.generation && MayExtend(v.reuse.value, fp, v.d)
    requires SuffixContract(o) && v.futureEpoch == None
    ensures Justified(o, saved, v.d, fp.weights, fp.wavelength, v.published.value.blocks, v.reuse.value.anchor)
  {
    var r := v.reuse.value;
    assert GrownPast(saved, v.d, r.anchor, fp.wavelength, r.anchorWaveEnd);
  }

  /** The reuse record after a strict ingest that led from `v` to `v'`. */
  function Reported(v: View, update: MirrorUpdate, v': View, id: Identity): Option<Reuse> {
    AfterStrict(v.reuse, v.generation, |v.d.blocks|, update, v'.d, v'.generation, id)
  }

  /** Strict growth that nobody reports keeps the invariant. */
  lemma {:induction false} GrowthKeepsState(o: Ordering, v: View, saved: Dag, accepted: map<Bytes, NativeMessage>,
                                            order: seq<Block>)
    requires StateOk(o, v, saved, accepted) && StrictOrder(v.d, order)
    ensures StateOk(o, v.(d := Inserted(v.d, order), generation := v.generation + |order|), saved, accepted)
  {
    GrowthKeepsBlocks(v.d, order);
    NativeSurvivesGrowth(v.native, accepted, v.d.blocks, Inserted(v.d, order).blocks);
    GrowthKeepsCheckpoint(v.d, order);
    GrowthCovers(v.d, order);
    GrowthKeepsUnique(v.d, order);
    assert order == [] ==> Inserted(v.d, order) == v.d;
  }

  lemma {:induction false} GrowthKeepsUnique(d: Dag, order: seq<Block>)
    requires OnePerConsensus(d.blocks) && StrictOrder(d, order)
    ensures OnePerConsensus(Inserted(d, order).blocks)
  {
    if order != [] {
      var front, last := order[..|order| - 1], order[|order| - 1];
      GrowthKeepsUnique(d, front);
      InsertKeepsUnique(Inserted(d, front).blocks, last.identity, last.content);
    }
  }

  /** ... and so does the report. */
  lemma {:induction false} StrictKeepsState(o: Ordering, v: View, saved: Dag, accepted: map<Bytes, NativeMessage>,
                                            block: Block, update: MirrorUpdate, order: seq<Block>, v': View)
    requires StateOk(o, v, saved, accepted) && StrictOrder(v.d, order)
    requires update.disposition != Applied ==> order == []
    requires update.disposition == Applied ==> order != [] && order[0] == block && update.released == |order| - 1
    requires v' == v.(d := Inserted(v.d, order), generation := v.generation + |order|, reuse := v'.reuse)
    requires v'.reuse == Reported(v, update, v', block.identity)
    ensures StateOk(o, v', saved, accepted)
  {
    StrictKeepsRecord(v.reuse, saved, v.d, v.generation, block, update, order);
    GrowthKeepsState(o, v, saved, accepted, order);
    ReplaceReuse(o, v.(d := v'.d, generation := v'.generation), saved, accepted, v'.reuse);
  }

  /** Two records of the same publication. */
  ghost predicate SamePublication(a: Option<Reuse>, b: Option<Reuse>) {
    a.Some? == b.Some? && (a.Some? ==> a.value.fingerprint == b.value.fingerprint && a.value.anchor == b.value.anchor)
  }

  lemma ReplaceReuse(o: Ordering, v: View, saved: Dag, accepted: map<Bytes, NativeMessage>, reuse: Option<Reuse>)
    requires StateOk(o, v, saved, accepted) && SamePublication(v.reuse, reuse)
    requires RecordOk(reuse, saved, v.d, v.generation)
    ensures StateOk(o, v.(reuse := reuse), saved, accepted)
  {}

  lemma InvalidatedKeepsState(o: Ordering, v: View, saved: Dag, accepted: map<Bytes, NativeMessage>)
    requires StateOk(o, v, saved, accepted)
    ensures StateOk(o, v.(reuse := Invalidated(v.reuse)), saved, accepted)
  {}

  /** A bounded-window insertion and what it releases. */
  lemma {:induction false} WindowKeepsState(o: Ordering, v: View, saved: Dag, accepted: map<Bytes, NativeMessage>,
                                            block: Block, order: seq<Block>)
    requires StateOk(o, v, saved, accepted)
    requires block.identity !in v.d.blocks && !HasVariant(v.d.blocks, block.identity)
    requires StrictOrder(WithBoundary(v.d, block), order)
    ensures StateOk(o, v.(d := Inserted(WithBoundary(v.d, block), order), generation := v.generation + 1 + |order|),
      saved, accepted)
  {
    var v1 := v.(d := WithBoundary(v.d, block), generation := v.generation + 1);
    InsertKeepsUnique(v.d.blocks, block.identity, block.content);
    BoundaryCovers(v.d, block);
    NativeSurvivesGrowth(v.native, accepted, v.d.blocks, v1.d.blocks);
    GrowthKeepsState(o, v1, saved, accepted, order);
  }

  /** A candidate that may be indexed once its block is stored. */
  predicate Indexable(mapper: Mapper, index: NativeIndex, candidate: Validated, msg: NativeMessage) {
    && CheckCandidate(mapper, index, candidate).None? && candidate.wireHash !in index.byWireHash
    && msg.blockHash == candidate.wireHash && Dependencies(msg) <= index.byWireHash.Keys
    && candidate.block.content.preds == Images(index, Dependencies(msg))
  }

  lemma {:induction false} AcceptKeepsState(o: Ordering, mapper: Mapper, v: View, saved: Dag,
                                            accepted: map<Bytes, NativeMessage>, msg: NativeMessage,
                                            candidate: Validated)
    requires StateOk(o, v, saved, accepted) && Indexable(mapper, v.native, candidate, msg)
    requires var block := candidate.block;
      block.identity in v.d.blocks && v.d.blocks[block.identity] == block.content
    ensures StateOk(o, v.(native := Recorded(v.native, candidate)), saved, accepted[msg.blockHash := msg])
  {
    NativeAccepts(mapper, v.native, accepted, v.d.blocks, candidate, msg);
  }

  // ---- weights ----

  lemma SameMembership(bonds: Bonds, weights: Bonds)
    ensures |bonds| == |weights| && (forall k :: k in bonds ==> k in weights) <==> bonds.Keys == weights.Keys
  {
    if |bonds| == |weights| && forall k :: k in bonds ==> k in weights {
      assert bonds.Keys <= weights.Keys && |weights.Keys - bonds.Keys| == 0;
    }
    assert |bonds| == |bonds.Keys| && |weights| == |weights.Keys|;
  }

  lemma {:induction false} PublishKeepsState(o: Ordering, v: View, saved: Dag, accepted: map<Bytes, NativeMessage>,
                                             fp: Fingerprint, output: OrderedFinalizedOutput, v': View)
    requires StateOk(o, v, saved, accepted) && fp.generation == v.generation && Labelled(fp, output)
    requires SuffixContract(o) ==> Orders(o, v.d, fp.weights, fp.wavelength, output.blocks, output.anchor)
    requires v' == v.(fingerprint := Some(fp), reuse := NewReuse(v.d, fp, output), published := Some(output))
    ensures StateOk(o, v', v.d, accepted)
  {
    PublishKeepsRecord(v.d, fp, output);
    if SuffixContract(o) { PublishKeepsOrder(o, v.d, fp, output); }
  }

  // ---- polls ----

  /** The output extends what is published. */
  predicate Extends(published: Option<OrderedFinalizedOutput>, blocks: seq<Identity>) {
    published.Some? ==> published.value.blocks <= blocks
  }

  /** What the extension path yields: nothing unless every guard passes and the answer extends what is published. */
  function Extension(o: Ordering, v: View, fp: Fingerprint): SuffixOrder {
    if v.reuse == None || v.published == None || !MayExtend(v.reuse.value, fp, v.d) then Ok(None)
    else
      var previous := v.published.value.blocks;
      var r := VerifiedPrefix(o, v.d, fp.weights, fp.wavelength, previous, v.reuse.value.anchor);
      if r.Ok? && r.value.Some? && !(previous <= r.value.value.0) then Ok(None) else r
  }

  /** The extension when there is one, the full ordering otherwise. */
  function CachedOrdering(o: Ordering, v: View, fp: Fingerprint): FullOrder {
    match Extension(o, v, fp)
    case Err(e) => Err(e)
    case Ok(Some(extended)) => Ok((extended.0, Some(extended.1)))
    case Ok(None) => o.full(v.d, fp.weights, fp.wavelength)
  }

  /** Refuse an ordering that failed or does not extend what is published. */
  function Judged(order: FullOrder, published: Option<OrderedFinalizedOutput>, fp: Fingerprint, now: nat)
    : Result<OrderedFinalizedOutput, PollError>
  {
    match order
    case Err(_) => Err(OrderingFailed)
    case Ok((blocks, anchor)) =>
      var output := NewOutput(blocks, anchor, fp.wavelength, |fp.weights|, fp.mirrored, now);
      if Extends(published, output.blocks) then Ok(output) else Err(PrefixViolation)
  }

  function CurrentFingerprint(v: View, bonds: Bonds, wavelength: nat): Fingerprint {
    Fingerprint(v.generation, |v.d.blocks|, wavelength, bonds)
  }

  /** The fingerprint of the published output is the current one. */
  predicate Hits(v: View, fp: Fingerprint) {
    v.fingerprint == Some(fp) && v.published.Some?
  }

  /** The answer of a poll outside an epoch, from the caches where they apply. */
  function PollAnswer(o: Ordering, v: View, fp: Fingerprint, now: nat): Result<OrderedFinalizedOutput, PollError> {
    if Hits(v, fp) then Ok(v.published.value) else Judged(CachedOrdering(o, v, fp), v.published, fp, now)
  }

  /** A new publication replaces output, fingerprint and record together; a failure changes nothing. */
  function Republished(v: View, fp: Fingerprint, r: Result<OrderedFinalizedOutput, PollError>): View {
    match r
    case Err(_) => v
    case Ok(output) =>
      v.(fingerprint := Some(fp), reuse := NewReuse(v.d, fp, output), published := Some(output))
  }

  /** Serving the published output changes nothing either. */
  function AfterPoll(v: View, fp: Fingerprint, r: Result<OrderedFinalizedOutput, PollError>): View {
    if Hits(v, fp) then v else Republished(v, fp, r)
  }

  /** A replay is published and both caches are dropped. */
  function AfterEpochPoll(v: View, r: Result<OrderedFinalizedOutput, PollError>): View {
    match r
    case Err(_) => v
    case Ok(output) => v.(fingerprint := None, reuse := None, published := Some(output))
  }

  /** The same order, or the same failure; the time of the computation aside. */
  ghost predicate SameAnswer(a: Result<OrderedFinalizedOutput, PollError>,
                             b: Result<OrderedFinalizedOutput, PollError>)
  {
    match a
    case Err(e) => b == Err(e)
    case Ok(output) => b.Ok? && b.value.(computedAt := output.computedAt) == output
  }

  /**
   * The caches are transparent: in every valid state, under the helper's contract, a poll answers or fails exactly
   * like one that always computes the full ordering, unless the helper itself fails.
   */
  lemma {:induction false} CachesAreTransparent(o: Ordering, v: View, saved: Dag, accepted: map<Bytes, NativeMessage>,
                                                fp: Fingerprint, now: nat)
    requires StateOk(o, v, saved, accepted) && SuffixContract(o) && v.futureEpoch == None
    requires fp == CurrentFingerprint(v, fp.weights, fp.wavelength)
    ensures Extension(o, v, fp).Ok? || Hits(v, fp) ==>
      SameAnswer(PollAnswer(o, v, fp, now), Judged(o.full(v.d, fp.weights, fp.wavelength), v.published, fp, now))
    ensures Extension(o, v, fp).Err? && !Hits(v, fp) ==> PollAnswer(o, v, fp, now) == Err(OrderingFailed)
  {
    if !Hits(v, fp) && Extension(o, v, fp).Ok? && Extension(o, v, fp).value.Some? {
      GuardsJustifyExtension(o, v, saved, accepted, fp);
      assert SuffixAnswers(o, v.d, fp.weights, fp.wavelength, v.published.value.blocks, v.reuse.value.anchor);
    }
  }

  /** The record replays under the present weights to an output of the asked wavelength. */
  predicate Replays(replay: EpochReplay, d: Dag, record: EpochRecord, bonds: Bonds, wavelength: nat) {
    && bonds == record.newWeights
    && var output := replay(record, d, bonds.Keys, record.checkpointHash);
       output.Some? && output.value.wavelength == wavelength
  }

  /** What a poll inside the epoch of `record` answers. */
  ghost predicate EpochOutcome(replay: EpochReplay, v: View, record: EpochRecord, bonds: Bonds, wavelength: nat,
                               r: Result<OrderedFinalizedOutput, PollError>)
  {
    match r
    case Err(EpochReplayFailed) => !Replays(replay, v.d, record, bonds, wavelength)
    case Err(PrefixViolation) =>
      && Replays(replay, v.d, record, bonds, wavelength)
      && !Extends(v.published, replay(record, v.d, bonds.Keys, record.checkpointHash).value.blocks)
    case Err(OrderingFailed) => false
    case Ok(output) =>
      && Replays(replay, v.d, record, bonds, wavelength) && Extends(v.published, output.blocks)
      && replay(record, v.d, bonds.Keys, record.checkpointHash) == Some(output)
  }

  /** Committed, and replayable from the weights it starts from. */
  predicate Installable(replay: EpochReplay, v: View, bonds: Bonds, record: EpochRecord, committed: Hash) {
    && record.checkpointHash == committed && bonds == record.oldWeights
    && replay(record, v.d, bonds.Keys, committed).Some?
  }

  /** What installing an epoch does. */
  ghost predicate InstallOutcome(replay: EpochReplay, v: View, bonds: Bonds, record: EpochRecord, committed: Hash,
                                 r: Result<(), PollError>)
  {
    match v.futureEpoch
    case Some(active) =>
      && (r.Ok? <==> active == record && record.checkpointHash == committed)
      && (r.Err? ==> r.error == EpochReplayFailed)
    case None =>
      && (r == Err(EpochReplayFailed) <==> !Installable(replay, v, bonds, record, committed))
      && (r.Ok? <==>
          && Installable(replay, v, bonds, record, committed)
          && Extends(v.published, replay(record, v.d, bonds.Keys, committed).value.blocks))
      && (r.Err? ==> r.error == EpochReplayFailed || r.error == PrefixViolation)
  }

  // ---- the ingress ----

  class LiveIngress {
    const mirror: LiveBlocklaceMirror
    const shared: SharedOrderedOutput
    const ordering: Ordering
    const mapper: Mapper
    const replay: EpochReplay
    var native: NativeIndex
    var fingerprint: Option<Fingerprint>
    var reuse: Option<Reuse>
    var bonds: Bonds
    var futureEpoch: Option<EpochRecord>

    /** The lace of the last ordinary publication, and the native messages accepted so far. */
    ghost var saved: Dag
    ghost var accepted: map<Bytes, NativeMessage>

    ghost function Dag(): Dag
      reads mirror, mirror.blocklace
    {
      mirror.blocklace.Dag()
    }

    ghost function Now(): View
      reads this, mirror, mirror.blocklace, shared
    {
      View(Dag(), mirror.blocklace.generation, native, fingerprint, reuse, shared.latest, futureEpoch)
    }

    ghost predicate Valid()
      reads this, mirror, mirror.blocklace, shared
    {
      mirror.Valid() && mirror.AcceptsAll() && StateOk(ordering, Now(), saved, accepted)
    }

    ghost function Published(): seq<Identity>
      reads shared
    {
      if shared.latest == None then [] else shared.latest.value.blocks
    }

    constructor (ordering: Ordering, mapper: Mapper, replay: EpochReplay, bonds: Bonds)
      ensures Valid() && fresh(mirror) && fresh(mirror.blocklace) && fresh(shared)
      ensures this.ordering == ordering && this.mapper == mapper && this.replay == replay && this.bonds == bonds
      ensures Dag() == EMPTY && native == EMPTY_INDEX && shared.latest == None && futureEpoch == None
      ensures fingerprint == None && reuse == None
    {
      mirror := new LiveBlocklaceMirror((b: Block) => true);
      shared := new SharedOrderedOutput();
      this.ordering, this.mapper, this.replay, this.bonds := ordering, mapper, replay, bonds;
      native, fingerprint, reuse, futureEpoch := EMPTY_INDEX, None, None, None;
      saved, accepted := EMPTY, map[];
    }

    /** No saved prefix is extended until the next publication. */
    method InvalidateFinalizedPrefixReuse()
      requires Valid()
      modifies this`reuse
      ensures Valid() && reuse == Invalidated(old(reuse))
    {
      InvalidatedKeepsState(ordering, Now(), saved, accepted);
      reuse := Invalidated(reuse);
    }

    // ---- ingest ----

    /** Tell the reuse record what a strict ingest did. */
    method RecordStrictMirrorUpdate(generation: nat, mirrored: nat, update: MirrorUpdate, id: Identity)
      modifies this`reuse
      ensures reuse == AfterStrict(old(reuse), generation, mirrored, update, Dag(), mirror.blocklace.generation, id)
    {
      if reuse == None || update.disposition == Duplicate { return; }
      var r := reuse.value;
      if update.disposition != Applied || r.observedGeneration != generation || r.observedMirrored != mirrored {
        reuse := Some(r.(safeAppend := false));
        return;
      }
      var d, generation' := mirror.blocklace.Dag(), mirror.blocklace.generation;
      if update.released == 0 && generation' == generation + 1 && |d.blocks| == mirrored + 1 &&
         Deeper(d, id, r.anchorWaveEnd)
      {
        reuse := Some(r.(observedGeneration := generation', observedMirrored := |d.blocks|));
      } else {
        reuse := Some(r.(safeAppend := false));
      }
    }

    /** Strict ingest into the mirror that the reuse record does not learn of; the mutation counter outdates it. */
    method MirrorUntracked(block: Block) returns (r: Result<MirrorUpdate, InsertError>, ghost order: seq<Block>)
      requires Valid()
      modifies mirror, mirror.blocklace
      ensures Valid() && StrictOrder(old(Dag()), order) && Dag() == Inserted(old(Dag()), order)
      ensures mirror.blocklace.generation == old(mirror.blocklace.generation) + |order|
      ensures Outcome(old(Dag().blocks), old(mirror.pending), block, r, order, mirror.pending)
    {
      ghost var v := Now();
      r, order := mirror.Ingest(block);
      GrowthKeepsState(ordering, v, saved, accepted, order);
    }

    /** Strict ingest into the mirror; the reuse record learns what happened. */
    method MirrorStrict(block: Block) returns (r: Result<MirrorUpdate, InsertError>, ghost order: seq<Block>)
      requires Valid()
      modifies this`reuse, mirror, mirror.blocklace
      ensures Valid()
      ensures StrictOrder(old(Dag()), order) && Dag() == Inserted(old(Dag()), order)
      ensures mirror.blocklace.generation == old(mirror.blocklace.generation) + |order|
      ensures r.Err? <==> old(Clashes(Dag().blocks, mirror.pending, block.identity))
      ensures r.Err? ==> order == [] && mirror.pending == old(mirror.pending) && reuse == Invalidated(old(reuse))
      ensures r.Ok? ==> (r.value.disposition == Applied <==> order != []) && (order != [] ==> order[0] == block)
      ensures r.Ok? ==> reuse == Reported(old(Now()), r.value, Now(), block.identity)
    {
      var generation, mirrored := mirror.blocklace.generation, |mirror.blocklace.blocks|;
      ghost var v := Now();
      r, order := MirrorUntracked(block);
      if r.Err? {
        InvalidateFinalizedPrefixReuse();
        return;
      }
      ghost var next := Now().(reuse := Reported(v, r.value, Now(), block.identity));
      StrictKeepsState(ordering, v, saved, accepted, block, r.value, order, next);
      RecordStrictMirrorUpdate(generation, mirrored, r.value, block.identity);
      assert Now() == next;
    }

    /** A trusted block goes to the adapter first, then into the mirror. */
    method IngestTrustedBlock(block: Block, adapterAccepts: bool)
      returns (r: Result<MirrorUpdate, IngestError>, ghost order: seq<Block>)
      requires Valid()
      modifies this`reuse, mirror, mirror.blocklace
      ensures Valid()
      ensures StrictOrder(old(Dag()), order) && Dag() == Inserted(old(Dag()), order)
      ensures r == Err(Adapter) <==> !adapterAccepts
      ensures adapterAccepts ==> (r.Err? <==> old(Clashes(Dag().blocks, mirror.pending, block.identity)))
      ensures r.Err? ==> order == [] && mirror.pending == old(mirror.pending)
      ensures r.Err? ==> reuse == if adapterAccepts then Invalidated(old(reuse)) else old(reuse)
      ensures r.Ok? ==> (r.value.disposition == Applied <==> order != []) && (order != [] ==> order[0] == block)
      ensures r.Ok? ==> reuse == Reported(old(Now()), r.value, Now(), block.identity)
    {
      if !adapterAccepts {
        assert Inserted(Dag(), []) == Dag();
        return Err(Adapter), [];
      }
      var update;
      update, order := MirrorStrict(block);
      r := if update.Err? then Err(Rejected(update.error)) else Ok(update.value);
    }

    /** Ingest of a bounded window: anything but a duplicate ends prefix reuse. */
    method IngestTrustedWindowBlock(block: Block, adapterAccepts: bool)
      returns (r: Result<MirrorUpdate, IngestError>, ghost order: seq<Block>)
      requires Valid()
      modifies this`reuse, mirror, mirror.blocklace
      ensures Valid()
      ensures r == Err(Adapter) <==> !adapterAccepts
      ensures r.Err? && adapterAccepts <==> adapterAccepts && old(Clashes(Dag().blocks, mirror.pending, block.identity))
      ensures r.Ok? ==>
        (r.value.disposition == Duplicate <==> old(IsKnown(Dag().blocks, mirror.pending, block.identity)))
      ensures r.Ok? ==> r.value.disposition != Buffered
      ensures r.Err? || r.value.disposition == Duplicate ==>
        Dag() == old(Dag()) && mirror.pending == old(mirror.pending)
      ensures r.Ok? && r.value.disposition == Applied ==>
        StrictOrder(WithBoundary(old(Dag()), block), order) && Dag() == Inserted(WithBoundary(old(Dag()), block), order)
      ensures reuse ==
        if r == Err(Adapter) || (r.Ok? && r.value.disposition == Duplicate) then old(reuse) else Invalidated(old(reuse))
    {
      if !adapterAccepts { return Err(Adapter), []; }
      var update;
      update, order := MirrorWindow(block);
      if update.Err? || update.value.disposition != Duplicate { InvalidateFinalizedPrefixReuse(); }
      r := if update.Err? then Err(Rejected(update.error)) else Ok(update.value);
    }

    /** The mirror's part of it; the reuse record is not told, and the mutation counter outdates it. */
    method MirrorWindow(block: Block) returns (r: Result<MirrorUpdate, InsertError>, ghost order: seq<Block>)
      requires Valid()
      modifies mirror, mirror.blocklace
      ensures Valid()
      ensures r != Err(InvalidSignature)
      ensures WindowOutcome(mirror.accepts, old(Dag()), old(mirror.pending), block, r, order, Dag(), mirror.pending)
    {
      ghost var v, pending := Now(), mirror.pending;
      r, order := mirror.IngestWithTrustedBoundary(block);
      if r.Ok? && r.value.disposition == Applied {
        FreshIsApart(v.d.blocks, pending, block.identity);
        WindowKeepsState(ordering, v, saved, accepted, block, order);
      }
    }

    /** Everything that is checked before a native message reaches the adapter; `Ok(None)` for one already accepted. */
    method Preflight(msg: NativeMessage, genesis: bool) returns (r: Result<Option<Validated>, NativeError>)
      requires Valid()
      ensures r.Ok? <==> Passes(mapper, msg, native, genesis, Dag().blocks, mirror.pending)
      ensures r.Err? ==> Blames(r.error, msg, native)
      ensures r.Ok? ==> (r.value == None <==> msg.blockHash in native.byWireHash)
      ensures r.Ok? && r.value.Some? ==> r.value.value == Candidate(mapper, msg, native)
      ensures r.Ok? && r.value.Some? ==>
        Indexable(mapper, native, r.value.value, msg) && Available(Dag().blocks, r.value.value.block)
    {
      if WellFormed(mapper, msg, native, genesis) { CandidateIs(mapper, msg, native, genesis); }
      var validated;
      if genesis {
        validated := FromTrustedUnsignedGenesis(mapper, msg);
      } else {
        validated := FromProtobufWithParents(mapper, msg, native);
      }
      if validated.Err? { return Err(validated.error); }
      var v := validated.value;
      assert v == Candidate(mapper, msg, native);
      var refusal := CheckCandidate(mapper, native, v);
      if refusal.Some? { return Err(refusal.value); }
      if genesis && v.wireHash !in native.byWireHash && mirror.blocklace.blocks != map[] {
        return Err(GenesisTooLate);
      }
      if v.wireHash in native.byWireHash {
        IndexedIsStored(native, accepted, mirror.blocklace.blocks, v.wireHash);
        if !Resolves(mirror.blocklace.blocks, native.byWireHash[v.wireHash]) {
          assert false;
        }
        return Ok(None);
      }
      if Resolves(mirror.blocklace.blocks, v.block.identity) || v.block.identity in mirror.pending {
        return Err(MissingMapping);
      }
      CandidateIsAvailable(native, accepted, mirror.blocklace.blocks, Dependencies(msg));
      if Unresolved(mirror.blocklace.blocks, v.block.content.preds) != {} {
        assert false;
      }
      r := Ok(Some(v));
    }

    /** Insert a candidate that passed preflight, then index it. */
    method AcceptNative(v: Validated, msg: NativeMessage)
      returns (r: Result<MirrorUpdate, NativeError>, ghost order: seq<Block>)
      requires Valid() && Indexable(mapper, native, v, msg) && Available(Dag().blocks, v.block)
      requires !IsKnown(Dag().blocks, mirror.pending, v.block.identity)
      modifies this`native, this`accepted, mirror, mirror.blocklace
      ensures Valid()
      ensures StrictOrder(old(Dag()), order) && Dag() == Inserted(old(Dag()), order)
      ensures r.Err? <==> r == Err(MirrorRejected)
      ensures r.Err? <==> old(Clashes(Dag().blocks, mirror.pending, v.block.identity))
      ensures r.Err? ==> PendingVariant(old(mirror.pending), v.block.identity)
      ensures r.Err? ==>
        order == [] && native == old(native) && accepted == old(accepted) && mirror.pending == old(mirror.pending)
      ensures r.Ok? ==>
        && order != [] && order[0] == v.block && r.value == MirrorUpdate(Applied, |order| - 1)
        && native == Recorded(old(native), v) && accepted == old(accepted)[msg.blockHash := msg]
    {
      var update;
      update, order := MirrorUntracked(v.block);
      if update.Err? {
        OnlyWaitingClashes(old(Dag().blocks), old(mirror.pending), v.block.identity);
        return Err(MirrorRejected), order;
      }
      if update.value.disposition != Applied {
        assert false;
      }
      FirstStays(old(Dag()), order);
      RecordAccepted(v, msg);
      r := Ok(update.value);
    }

    /** Index a stored candidate. */
    method RecordAccepted(v: Validated, msg: NativeMessage)
      requires Valid() && Indexable(mapper, native, v, msg)
      requires v.block.identity in Dag().blocks && Dag().blocks[v.block.identity] == v.block.content
      modifies this`native, this`accepted
      ensures Valid()
      ensures native == Recorded(old(native), v) && accepted == old(accepted)[msg.blockHash := msg]
    {
      ghost var next := Now().(native := Recorded(native, v));
      AcceptKeepsState(ordering, mapper, Now(), saved, accepted, msg, v);
      native, accepted := Recorded(native, v), accepted[msg.blockHash := msg];
      assert Now() == next;
    }

    /**
     * Ingest of a native message. Neither cache is told; the index is updated only after the
     * mirror took the block in.
     */
    method IngestNative(msg: NativeMessage, genesis: bool, adapterAccepts: bool, stores: bool)
      returns (r: Result<MirrorUpdate, NativeError>, ghost order: seq<Block>)
      requires Valid()
      modifies this`native, this`accepted, mirror, mirror.blocklace
      ensures Valid()
      ensures StrictOrder(old(Dag()), order) && Dag() == Inserted(old(Dag()), order)
      ensures r.Err? ==>
        NativeRefusal(mapper, msg, old(native), genesis, old(Dag().blocks), old(mirror.pending), adapterAccepts, stores,
                      r.error)
      ensures r == Err(MirrorRejected) ==>
        PendingVariant(old(mirror.pending), Candidate(mapper, msg, old(native)).block.identity)
      ensures r.Ok? <==>
        && stores && (adapterAccepts || msg.blockHash in old(native).byWireHash)
        && old(Admissible(mapper, msg, native, genesis, Dag().blocks, mirror.pending))
      ensures NativeOutcome(mapper, msg, old(native), old(accepted), r, order, native, accepted)
      ensures order == [] ==> mirror.pending == old(mirror.pending)
    {
      assert Inserted(Dag(), []) == Dag();
      var preflight := Preflight(msg, genesis);
      if preflight.Err? { return Err(preflight.error), []; }
      if preflight.value == None {
        if !stores { return Err(PersistenceFailed), []; }
        return Ok(MirrorUpdate(Duplicate, 0)), [];
      }
      if !adapterAccepts { return Err(AdapterRejected), []; }
      if !stores { return Err(PersistenceFailed), []; }
      r, order := AcceptNative(preflight.value.value, msg);
    }

    // ---- weights and epochs ----

    /** Replacing the bonds ends prefix reuse; setting the same bonds changes nothing. */
    method SetBonds(bonds: Bonds)
      requires Valid()
      modifies this`bonds, this`reuse
      ensures Valid() && this.bonds == bonds
      ensures reuse == if bonds == old(this.bonds) then old(reuse) else Invalidated(old(reuse))
    {
      if this.bonds != bonds { Reweigh(bonds); }
    }

    /**
     * Activate the reputation of the present validators. The publication must cover what the reputation was
     * computed from, and the weights may change neither the final leader nor the finalized prefix already published.
     */
    method ApplyPorWeights(hasher: Bytes -> Hash, state: ReputationState) returns (r: Result<(), WeightError>)
      requires Valid()
      modifies this`bonds, this`reuse
      ensures Valid()
      ensures r.Ok? ==>
        && futureEpoch == None && reuse == Invalidated(old(reuse))
        && Activates(ordering, hasher, Dag(), shared.latest, state, old(bonds).Keys, bonds)
      ensures r.Err? ==> bonds == old(bonds) && reuse == old(reuse)
      ensures r == Err(FutureEpochActive) <==> futureEpoch.Some?
      ensures r.Err? && futureEpoch == None ==>
        ActivationRefusal(ordering, hasher, Dag(), shared.latest, state, bonds.Keys, r.error)
    {
      if futureEpoch.Some? { return Err(FutureEpochActive); }
      var checked := CheckedWeights(ordering, hasher, mirror.blocklace.Dag(), shared.latest, state, bonds.Keys);
      if checked.Err? { return Err(checked.error); }
      Reweigh(checked.value);
      r := Ok(());
    }

    /** New weights end prefix reuse. */
    method Reweigh(weights: Bonds)
      requires Valid()
      modifies this`bonds, this`reuse
      ensures Valid() && bonds == weights && reuse == Invalidated(old(reuse))
    {
      bonds := weights;
      InvalidateFinalizedPrefixReuse();
    }

    /** Restore weights of a recorded activation: same validators only. */
    method RestoreActivatedPorWeights(weights: Bonds) returns (r: Result<(), WeightError>)
      requires Valid()
      modifies this`bonds, this`reuse
      ensures Valid()
      ensures r.Ok? <==> futureEpoch == None && weights.Keys == old(bonds).Keys
      ensures r.Err? ==> bonds == old(bonds) && reuse == old(reuse)
      ensures r.Ok? ==> bonds == weights && reuse == Invalidated(old(reuse))
    {
      if futureEpoch.Some? { return Err(FutureEpochActive); }
      SameMembership(bonds, weights);
      if |bonds| != |weights| || exists k :: k in bonds && k !in weights { return Err(MembershipMismatch); }
      Reweigh(weights);
      r := Ok(());
    }

    /** Verify a committed cutover by replay, publish its output and switch to its weights. */
    method InstallFutureEpoch(record: EpochRecord, committed: Hash) returns (r: Result<(), PollError>)
      requires Valid()
      modifies this`bonds, this`futureEpoch, shared
      ensures Valid() && old(Published()) <= Published()
      ensures InstallOutcome(replay, old(Now()), old(bonds), record, committed, r)
      ensures r.Err? ==> bonds == old(bonds) && futureEpoch == old(futureEpoch) && shared.latest == old(shared.latest)
      ensures r.Ok? ==> futureEpoch == Some(record) && record.checkpointHash == committed
      ensures r.Ok? && old(futureEpoch).Some? ==> bonds == old(bonds) && shared.latest == old(shared.latest)
      ensures r.Ok? && old(futureEpoch) == None ==>
        && old(bonds) == record.oldWeights && bonds == record.newWeights && shared.latest.Some?
        && shared.latest == replay(record, Dag(), old(bonds).Keys, committed)
    {
      if record.checkpointHash != committed { return Err(EpochReplayFailed); }
      if futureEpoch.Some? {
        return if futureEpoch.value == record then Ok(()) else Err(EpochReplayFailed);
      }
      if bonds != record.oldWeights { return Err(EpochReplayFailed); }
      var output := replay(record, mirror.blocklace.Dag(), bonds.Keys, committed);
      if output == None { return Err(EpochReplayFailed); }
      if shared.latest.Some? && !(shared.latest.value.blocks <= output.value.blocks) { return Err(PrefixViolation); }
      var entered := EnterEpoch(record, output.value);
      r := if entered then Ok(()) else Err(PrefixViolation);
    }

    /** Publish the replay and switch the weights, in this order. */
    method EnterEpoch(record: EpochRecord, output: OrderedFinalizedOutput) returns (ok: bool)
      requires Valid() && futureEpoch == None
      modifies this`bonds, this`futureEpoch, shared
      ensures Valid() && (ok <==> old(Published()) <= output.blocks)
      ensures ok ==> shared.latest == Some(output) && bonds == record.newWeights && futureEpoch == Some(record)
      ensures !ok ==> shared.latest == old(shared.latest) && bonds == old(bonds) && futureEpoch == None
    {
      ok := shared.Update(output);
      if !ok { return; }
      bonds := record.newWeights;
      futureEpoch := Some(record);
    }

    // ---- the poll ----

    /** Extend the published output when every guard passes; `Ok(None)` asks for a full ordering. */
    method TryExtendFinalizedPrefix(fp: Fingerprint) returns (r: SuffixOrder)
      requires Valid() && fp.generation == mirror.blocklace.generation && fp.weights == bonds
      ensures reuse.Some? && MayExtend(reuse.value, fp, Dag()) ==> Unchanged(saved, Dag(), reuse.value, fp)
      ensures r == Extension(ordering, Now(), fp)
      ensures r.Ok? && r.value.Some? ==> Published() <= r.value.value.0
      ensures SuffixContract(ordering) && futureEpoch == None && r.Ok? && r.value.Some? ==>
        Orders(ordering, Dag(), bonds, fp.wavelength, Strip(r.value.value.0), Some(Unsigned(r.value.value.1)))
    {
      if reuse == None || !MayExtend(reuse.value, fp, mirror.blocklace.Dag()) { return Ok(None); }
      GuardsKeepShallow(ordering, Now(), saved, accepted, fp);
      if shared.latest == None { return Ok(None); }
      var previous := shared.latest.value.blocks;
      r := VerifiedPrefix(ordering, mirror.blocklace.Dag(), bonds, fp.wavelength, previous, reuse.value.anchor);
      if r.Err? || r.value == None { return; }
      if SuffixContract(ordering) && futureEpoch == None {
        GuardsJustifyExtension(ordering, Now(), saved, accepted, fp);
        assert SuffixAnswers(ordering, Dag(), bonds, fp.wavelength, previous, reuse.value.anchor);
      }
      if !(previous <= r.value.value.0) { return Ok(None); }
    }

    /** The extension when there is one, the full ordering otherwise. */
    method CurrentOrdering(fp: Fingerprint) returns (r: FullOrder)
      requires Valid() && fp.generation == mirror.blocklace.generation && fp.weights == bonds
      ensures r == CachedOrdering(ordering, Now(), fp)
      ensures SuffixContract(ordering) && futureEpoch == None && r.Ok? ==>
        Orders(ordering, Dag(), bonds, fp.wavelength, Strip(r.value.0), StripAnchor(r.value.1))
    {
      var incremental := TryExtendFinalizedPrefix(fp);
      match incremental
      case Err(e) => r := Err(e);
      case Ok(Some(extended)) => r := Ok((extended.0, Some(extended.1)));
      case Ok(None) => r := ordering.full(mirror.blocklace.Dag(), bonds, fp.wavelength);
    }

    /** Publish an output of the current lace and remember what it was computed from. */
    method Publish(fp: Fingerprint, output: OrderedFinalizedOutput) returns (ok: bool)
      requires Valid() && fp.generation == mirror.blocklace.generation && futureEpoch == None && Labelled(fp, output)
      requires SuffixContract(ordering) ==>
        Orders(ordering, Dag(), fp.weights, fp.wavelength, output.blocks, output.anchor)
      modifies this`fingerprint, this`reuse, this`saved, shared
      ensures Valid() && (ok <==> old(Published()) <= output.blocks)
      ensures saved == if ok then Dag() else old(saved)
      ensures Now() == Republished(old(Now()), fp, if ok then Ok(output) else Err(PrefixViolation))
    {
      ghost var next := Republished(Now(), fp, Ok(output));
      PublishKeepsState(ordering, Now(), saved, accepted, fp, output, next);
      ok := shared.Update(output);
      if !ok { return; }
      fingerprint := Some(fp);
      reuse := NewReuse(mirror.blocklace.Dag(), fp, output);
      saved := Dag();
      assert Now() == next;
    }

    /** The latest finalized output: reuse the published one, extend it, or order the whole lace. */
    method LatestFinalizedOrderedOutput(wavelength: nat, now: nat)
      returns (r: Result<OrderedFinalizedOutput, PollError>)
      requires Valid()
      modifies this`fingerprint, this`reuse, this`saved, shared
      ensures Valid() && old(Published()) <= Published()
      ensures match futureEpoch
        case None =>
          var fp := CurrentFingerprint(old(Now()), bonds, wavelength);
          && r == PollAnswer(ordering, old(Now()), fp, now) && Now() == AfterPoll(old(Now()), fp, r)
          && saved == if r.Ok? && !Hits(old(Now()), fp) then Dag() else old(saved)
        case Some(record) =>
          && EpochOutcome(replay, old(Now()), record, bonds, wavelength, r)
          && Now() == AfterEpochPoll(old(Now()), r) && saved == old(saved)
      ensures r.Ok? ==> shared.latest == Some(r.value)
      ensures r.Ok? && futureEpoch == None && SuffixContract(ordering) ==>
        && Orders(ordering, Dag(), bonds, wavelength, r.value.blocks, r.value.anchor)
        && r.value.wavelength == wavelength && r.value.bondCount == |bonds| && r.value.mirrored == |Dag().blocks|
    {
      if futureEpoch.Some? {
        r := PollEpoch(wavelength);
        return;
      }
      var fp := Fingerprint(mirror.blocklace.generation, |mirror.blocklace.blocks|, wavelength, bonds);
      if fingerprint == Some(fp) && shared.latest.Some? {
        return Ok(shared.latest.value);
      }
      r := Recompute(fp, now);
    }

    /** Order the lace and publish. */
    method Recompute(fp: Fingerprint, now: nat) returns (r: Result<OrderedFinalizedOutput, PollError>)
      requires Valid() && futureEpoch == None && fp == CurrentFingerprint(Now(), bonds, fp.wavelength)
      modifies this`fingerprint, this`reuse, this`saved, shared
      ensures Valid() && old(Published()) <= Published()
      ensures r == Judged(CachedOrdering(ordering, old(Now()), fp), old(shared.latest), fp, now)
      ensures Now() == Republished(old(Now()), fp, r) && saved == if r.Ok? then Dag() else old(saved)
      ensures r.Ok? && SuffixContract(ordering) ==>
        Orders(ordering, Dag(), bonds, fp.wavelength, r.value.blocks, r.value.anchor)
    {
      var ordered := CurrentOrdering(fp);
      if ordered.Err? { return Err(OrderingFailed); }
      var output := NewOutput(ordered.value.0, ordered.value.1, fp.wavelength, |bonds|, fp.mirrored, now);
      var ok := Publish(fp, output);
      if !ok { return Err(PrefixViolation); }
      r := Ok(output);
    }

    /** A poll inside a future epoch replays it and drops both caches. */
    method PollEpoch(wavelength: nat) returns (r: Result<OrderedFinalizedOutput, PollError>)
      requires Valid() && futureEpoch.Some?
      modifies this`fingerprint, this`reuse, shared
      ensures Valid() && old(Published()) <= Published()
      ensures EpochOutcome(replay, old(Now()), futureEpoch.value, bonds, wavelength, r)
      ensures Now() == AfterEpochPoll(old(Now()), r)
    {
      var record := futureEpoch.value;
      if bonds != record.newWeights { return Err(EpochReplayFailed); }
      var output := replay(record, mirror.blocklace.Dag(), bonds.Keys, record.checkpointHash);
      if output == None || output.value.wavelength != wavelength { return Err(EpochReplayFailed); }
      var ok := shared.Update(output.value);
      if !ok { return Err(PrefixViolation); }
      fingerprint, reuse := None, None;
      r := Ok(output.value);
    }
  }
}
