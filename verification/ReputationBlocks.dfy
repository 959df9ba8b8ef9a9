/**
 * Reputation blocks, their entries and their structural checks: crates/cordial-por/src/types.rs, commitments.rs and
 * block.rs.
 */
module ReputationBlocks {
  import opened Basics
  import opened Por
  import opened Wire

  const WAVE_VERSION := 2
  const CHECKPOINT_VERSION := 3
  const BLOCKS_PER_CHECKPOINT := 16
  const MAX_SHARD_ID := 256

  datatype Source = Source(round: u64, prefixLength: u64, prefixHash: Hash)

  datatype Header = Header(
    version: u16,
    shardId: Bytes,
    finalizedWave: u64,
    checkpoint: Option<Source>,
    round: u64,
    previous: Option<Hash>,
    configHash: Hash,
    ratingsHash: Hash,
    penaltiesHash: Hash,
    root: Hash)

  datatype ReputationList = ReputationList(round: u64, entries: seq<Entry>)
  datatype ReputationBlock = ReputationBlock(header: Header, list: ReputationList)

  datatype BlockError =
    | UnsupportedVersion(u16) | MissingShardId | ShardIdTooLong
    | InvalidSourceWave | InvalidSourceCheckpoint | InvalidRound | RootMismatch
    | ExclusionMismatch | DuplicateEntry | UnsortedEntries
    | WireTooLarge | MalformedWire | UnsupportedWireVersion(u16) | ChecksumMismatch

  // ---- entries ----

  /** Excluded entries weigh nothing; only they retain a balance. */
  predicate ExclusionOk(entry: Entry) {
    (entry.excluded ==> entry.reputation == 0) && (!entry.excluded ==> entry.retained == 0)
  }

  ghost predicate EntriesOk(entries: seq<Entry>) {
    Ordered(entries) && forall k :: 0 <= k < |entries| ==> ExclusionOk(entries[k])
  }

  /** Exclusion flags first, then neighbours in strict node order. */
  method ValidateEntries(entries: seq<Entry>) returns (r: Result<(), BlockError>)
    ensures r.Ok? <==> EntriesOk(entries)
    ensures r == Err(ExclusionMismatch) <==> exists k :: 0 <= k < |entries| && !ExclusionOk(entries[k])
    ensures r == Err(DuplicateEntry) ==> exists k :: 0 < k < |entries| && entries[k - 1].nodeId == entries[k].nodeId
    ensures r == Err(UnsortedEntries) ==>
      exists k :: 0 < k < |entries| && Less(entries[k].nodeId, entries[k - 1].nodeId)
    ensures r.Err? ==> r.error == ExclusionMismatch || r.error == DuplicateEntry || r.error == UnsortedEntries
  {
    for i := 0 to |entries|
      invariant forall k :: 0 <= k < i ==> ExclusionOk(entries[k])
    {
      if !ExclusionOk(entries[i]) { return Err(ExclusionMismatch); }
    }
    if entries == [] { return Ok(()); }
    for i := 1 to |entries|
      invariant forall k :: 0 < k < i && k < |entries| ==> Less(entries[k - 1].nodeId, entries[k].nodeId)
    {
      var left, right := entries[i - 1].nodeId, entries[i].nodeId;
      LessIsStrict(left, right);
      if left == right { return Err(DuplicateEntry); }
      if !Less(left, right) { return Err(UnsortedEntries); }
    }
    forall i, j | 0 <= i < j < |entries| ensures Less(entries[i].nodeId, entries[j].nodeId) {
      NeighboursSuffice(entries, i, j);
    }
    r := Ok(());
  }

  // ---- structural validity ----

  /** A nonzero round whose prefix ends on its sixteen-block boundary. */
  predicate SourceOk(source: Source) {
    source.round != 0 && source.round * BLOCKS_PER_CHECKPOINT == source.prefixLength
  }

  /** The source fields agree with the version: a wave for version 2, a checkpoint for version 3. */
  predicate OriginOk(h: Header) {
    if h.version == WAVE_VERSION then h.checkpoint == None && h.finalizedWave + 1 == h.round
    else
      && h.version == CHECKPOINT_VERSION && h.finalizedWave == 0
      && h.checkpoint.Some? && h.checkpoint.value.round == h.round && SourceOk(h.checkpoint.value)
  }

  predicate ShardOk(shardId: Bytes) {
    0 < |shardId| <= MAX_SHARD_ID
  }

  /** Big-endian encoding of the entries, one after the other. */
  function EntryBytes(entry: Entry): Bytes {
    PutBytes(entry.nodeId) + (PutU64(entry.reputation) + (PutFlag(entry.excluded) + PutU64(entry.retained)))
  }

  function EntriesBytes(entries: seq<Entry>): Bytes {
    if entries == [] then [] else EntryBytes(entries[0]) + EntriesBytes(entries[1..])
  }

  const LIST_DOMAIN: Bytes := Ascii("cordial-por:reputation-list-commitment:v2")

  /** What the reputation root is the hash of. */
  function ListPreimage(list: ReputationList): Bytes {
    LIST_DOMAIN + (PutU64(list.round) + (PutU64(|list.entries|) + EntriesBytes(list.entries)))
  }

  type Hasher = Bytes -> Hash

  ghost predicate StructurallyValid(hash: Hasher, block: ReputationBlock) {
    && ShardOk(block.header.shardId) && OriginOk(block.header)
    && block.header.round == block.list.round
    && EntriesOk(block.list.entries)
    && block.header.root == hash(ListPreimage(block.list))
  }

  /** The checks of a block in the order they are made. */
  method ValidateReputationBlock(hash: Hasher, block: ReputationBlock) returns (r: Result<(), BlockError>)
    ensures r.Ok? <==> StructurallyValid(hash, block)
    ensures r == Err(RootMismatch) ==>
      EntriesOk(block.list.entries) && block.header.root != hash(ListPreimage(block.list))
  {
    var h := block.header;
    if h.version != WAVE_VERSION && h.version != CHECKPOINT_VERSION { return Err(UnsupportedVersion(h.version)); }
    if h.shardId == [] { return Err(MissingShardId); }
    if |h.shardId| > MAX_SHARD_ID { return Err(ShardIdTooLong); }
    if h.version == WAVE_VERSION {
      if h.checkpoint.Some? || h.finalizedWave + 1 >= U64 || h.finalizedWave + 1 != h.round {
        return Err(InvalidSourceWave);
      }
    } else {
      if h.finalizedWave != 0 || h.checkpoint == None || h.checkpoint.value.round != h.round {
        return Err(InvalidSourceCheckpoint);
      }
      var source := h.checkpoint.value;
      if source.round == 0 || source.round * BLOCKS_PER_CHECKPOINT >= U64 ||
         source.round * BLOCKS_PER_CHECKPOINT != source.prefixLength
      {
        return Err(InvalidSourceCheckpoint);
      }
    }
    if h.round != block.list.round { return Err(InvalidRound); }
    var entries := ValidateEntries(block.list.entries);
    if entries.Err? { return Err(entries.error); }
    if h.root != hash(ListPreimage(block.list)) { return Err(RootMismatch); }
    r := Ok(());
  }
}
