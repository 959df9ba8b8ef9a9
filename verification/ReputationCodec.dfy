/** The canonical wire form of reputation blocks: crates/cordial-por/src/block.rs. */
module ReputationCodec {
  import opened Basics
  import opened Por
  import opened ReputationBlocks
  import opened Wire

  const MAGIC: Bytes := Ascii("cordial-por-block")
  const CHECKSUM_DOMAIN_2: Bytes := Ascii("cordial-por:reputation-block-envelope:v2")
  const CHECKSUM_DOMAIN_3: Bytes := Ascii("cordial-por:reputation-block-envelope:v3")

  const CHECKSUM_LENGTH := 32
  const FIXED_LENGTH := 17 + 2 + 8 + CHECKSUM_LENGTH
  const MAX_WIRE := 64 * 1024 * 1024
  const MAX_PAYLOAD := MAX_WIRE - FIXED_LENGTH
  const MAX_ENTRIES := 1_000_000
  const MAX_NODE_ID := 4 * 1024

  // ---- the layout ----

  function SourceBytes(checkpoint: Option<Source>): Bytes {
    match checkpoint
    case None => []
    case Some(source) => PutU64(source.prefixLength) + source.prefixHash
  }

  function PreviousBytes(previous: Option<Hash>): Bytes {
    match previous
    case None => PutFlag(false)
    case Some(hash) => PutFlag(true) + hash
  }

  function ListBytes(list: ReputationList): Bytes {
    PutU64(list.round) + (PutU64(|list.entries|) + EntriesBytes(list.entries))
  }

  /** The whole payload of a block, field by field. */
  function Payload(block: ReputationBlock): Bytes {
    var h := block.header;
    PutU16(h.version) + (PutBytes(h.shardId) + (PutU64(h.finalizedWave) + (PutU64(h.round)
      + (SourceBytes(h.checkpoint) + (PreviousBytes(h.previous)
      + (h.configHash + (h.ratingsHash + (h.penaltiesHash + (h.root + ListBytes(block.list))))))))))
  }

  function Checksum(hash: Hasher, version: u16, payload: Bytes): Hash {
    var domain := if version == WAVE_VERSION then CHECKSUM_DOMAIN_2 else CHECKSUM_DOMAIN_3;
    hash(domain + MAGIC + PutU16(version) + PutU64(|payload|) + payload)
  }

  /** The publication envelope around a payload. */
  function Envelope(hash: Hasher, version: u16, payload: Bytes): Bytes {
    MAGIC + (PutU16(version) + (PutU64(|payload|) + (payload + Checksum(hash, version, payload))))
  }

  // ---- what can be written ----

  ghost predicate IdsFit(entries: seq<Entry>) {
    forall k :: 0 <= k < |entries| ==> |entries[k].nodeId| <= MAX_NODE_ID
  }

  ghost predicate WithinLimits(block: ReputationBlock) {
    |block.list.entries| <= MAX_ENTRIES && IdsFit(block.list.entries) && |Payload(block)| <= MAX_PAYLOAD
  }

  /** Blocks that have a wire form. */
  ghost predicate Encodable(hash: Hasher, block: ReputationBlock) {
    StructurallyValid(hash, block) && WithinLimits(block)
  }

  // ---- parsing the payload ----

  function TakeEntry(b: Bytes): Parsed<Entry> {
    var nodeId :- TakeBytes(b, MAX_NODE_ID);
    var reputation :- TakeU64(nodeId.1);
    var excluded :- TakeFlag(reputation.1);
    var retained :- TakeU64(excluded.1);
    Ok((Entry(nodeId.0, reputation.0, retained.0, excluded.0), retained.1))
  }

  function TakeEntries(b: Bytes, count: nat): Parsed<seq<Entry>> {
    if count == 0 then Ok(([], b))
    else
      var entry :- TakeEntry(b);
      var others :- TakeEntries(entry.1, count - 1);
      Ok(([entry.0] + others.0, others.1))
  }

  function TakeCount(b: Bytes): Parsed<u64> {
    var count :- TakeU64(b);
    if count.0 > MAX_ENTRIES then Err(TooLarge) else Ok(count)
  }

  function TakeList(b: Bytes): Parsed<ReputationList> {
    var round :- TakeU64(b);
    var count :- TakeCount(round.1);
    var entries :- TakeEntries(count.1, count.0);
    Ok((ReputationList(round.0, entries.0), entries.1))
  }

  function TakeSource(b: Bytes, round: u64): Parsed<Source> {
    var prefixLength :- TakeU64(b);
    var prefixHash :- TakeHash(prefixLength.1);
    Ok((Source(round, prefixLength.0, prefixHash.0), prefixHash.1))
  }

  function TakeCheckpoint(b: Bytes, version: u16, round: u64): Parsed<Option<Source>> {
    if version == WAVE_VERSION then Ok((None, b))
    else
      var source :- TakeSource(b, round);
      Ok((Some(source.0), source.1))
  }

  function TakePrevious(b: Bytes): Parsed<Option<Hash>> {
    var present :- TakeFlag(b);
    if !present.0 then Ok((None, present.1))
    else
      var hash :- TakeHash(present.1);
      Ok((Some(hash.0), hash.1))
  }

  function TakeHeader(b: Bytes): Result<(Header, Bytes), BlockError> {
    var head :- OnWire(TakeHead(b));
    if head.0.version != WAVE_VERSION && head.0.version != CHECKPOINT_VERSION then
      Err(UnsupportedVersion(head.0.version))
    else
      var checkpoint :- OnWire(TakeCheckpoint(head.1, head.0.version, head.0.round));
      var previous :- OnWire(TakePrevious(checkpoint.1));
      var roots :- OnWire(TakeRoots(previous.1));
      Ok((Header(head.0.version, head.0.shardId, head.0.finalizedWave, checkpoint.0, head.0.round, previous.0,
                 roots.0.config, roots.0.ratings, roots.0.penalties, roots.0.root), roots.1))
  }

  datatype Head = Head(version: u16, shardId: Bytes, finalizedWave: u64, round: u64)
  datatype Roots = Roots(config: Hash, ratings: Hash, penalties: Hash, root: Hash)

  function OnWire<T>(r: Result<T, WireError>): Result<T, BlockError> {
    match r
    case Ok(value) => Ok(value)
    case Err(Malformed) => Err(MalformedWire)
    case Err(TooLarge) => Err(WireTooLarge)
  }

  function TakeHead(b: Bytes): Parsed<Head> {
    var version :- TakeU16(b);
    var shardId :- TakeBytes(version.1, MAX_SHARD_ID);
    var finalizedWave :- TakeU64(shardId.1);
    var round :- TakeU64(finalizedWave.1);
    Ok((Head(version.0, shardId.0, finalizedWave.0, round.0), round.1))
  }

  function TakeRoots(b: Bytes): Parsed<Roots> {
    var config :- TakeHash(b);
    var ratings :- TakeHash(config.1);
    var penalties :- TakeHash(ratings.1);
    var root :- TakeHash(penalties.1);
    Ok((Roots(config.0, ratings.0, penalties.0, root.0), root.1))
  }

  function Parse(b: Bytes): Result<ReputationBlock, BlockError> {
    if |b| > MAX_PAYLOAD then Err(WireTooLarge)
    else
      var header :- TakeHeader(b);
      var list :- OnWire(TakeList(header.1));
      if list.1 != [] then Err(MalformedWire) else Ok(ReputationBlock(header.0, list.0))
  }

  // ---- what is written reads back ----

  lemma EntryReadsBack(e: Entry, rest: Bytes)
    requires |e.nodeId| <= MAX_NODE_ID
    ensures TakeEntry(EntryBytes(e) + rest) == Ok((e, rest))
  {
    var d := PutU64(e.retained) + rest;
    var c := PutFlag(e.excluded) + d;
    var b := PutU64(e.reputation) + c;
    assert EntryBytes(e) + rest == PutBytes(e.nodeId) + b;
    BytesReadBack(e.nodeId, MAX_NODE_ID, b);
    U64ReadsBack(e.reputation, c);
    FlagReadsBack(e.excluded, d);
    U64ReadsBack(e.retained, rest);
  }

  lemma EntryWritesBack(b: Bytes)
    requires TakeEntry(b).Ok?
    ensures b == EntryBytes(TakeEntry(b).value.0) + TakeEntry(b).value.1
    ensures |TakeEntry(b).value.0.nodeId| <= MAX_NODE_ID
  {
    BytesWriteBack(b, MAX_NODE_ID);
    var nodeId := TakeBytes(b, MAX_NODE_ID).value;
    U64WritesBack(nodeId.1);
    var reputation := TakeU64(nodeId.1).value;
    FlagWritesBack(reputation.1);
    var excluded := TakeFlag(reputation.1).value;
    U64WritesBack(excluded.1);
    var retained := TakeU64(excluded.1).value;
    Joined(PutBytes(nodeId.0), PutU64(reputation.0), PutFlag(excluded.0), PutU64(retained.0), retained.1);
  }

  lemma Joined(a: Bytes, b: Bytes, c: Bytes, d: Bytes, rest: Bytes)
    ensures a + (b + (c + (d + rest))) == (a + (b + (c + d))) + rest
  {}

  lemma TakeEntriesStep(b: Bytes, count: nat, entry: (Entry, Bytes), others: (seq<Entry>, Bytes))
    requires TakeEntry(b) == Ok(entry) && TakeEntries(entry.1, count) == Ok(others)
    ensures TakeEntries(b, count + 1) == Ok(([entry.0] + others.0, others.1))
  {}

  lemma IdsFitTail(entries: seq<Entry>)
    requires IdsFit(entries) && entries != []
    ensures IdsFit(entries[1..]) && |entries[0].nodeId| <= MAX_NODE_ID
  {
    forall k | 0 <= k < |entries| - 1
      ensures |entries[1..][k].nodeId| <= MAX_NODE_ID
    {
      assert entries[1..][k] == entries[k + 1];
    }
  }

  lemma {:induction false} EntriesReadBack(entries: seq<Entry>, rest: Bytes)
    requires IdsFit(entries)
    ensures TakeEntries(EntriesBytes(entries) + rest, |entries|) == Ok((entries, rest))
  {
    if entries == [] {
      assert EntriesBytes(entries) + rest == rest;
    } else {
      var first, others := entries[0], entries[1..];
      IdsFitTail(entries);
      EntriesReadBack(others, rest);
      var tail := EntriesBytes(others) + rest;
      assert EntriesBytes(entries) + rest == EntryBytes(first) + tail by {
        Associate(EntryBytes(first), EntriesBytes(others), rest);
      }
      EntryReadsBack(first, tail);
      TakeEntriesStep(EntryBytes(first) + tail, |others|, (first, tail), (others, rest));
      assert [first] + others == entries;
    }
  }

  lemma Associate(a: Bytes, b: Bytes, c: Bytes)
    ensures (a + b) + c == a + (b + c)
  {}

  /** Reading `count` entries from `b` gives `entries` and leaves `rest`. */
  ghost predicate Taken(b: Bytes, count: nat, entries: seq<Entry>, rest: Bytes) {
    match TakeEntries(b, count)
    case Ok(t) => t == (entries, rest)
    case Err(_) => false
  }

  lemma {:induction false} EntriesWriteBack(b: Bytes, count: nat, entries: seq<Entry>, rest: Bytes)
    requires Taken(b, count, entries, rest)
    ensures b == EntriesBytes(entries) + rest && |entries| == count && IdsFit(entries)
    decreases count
  {
    if count > 0 {
      var entry, tail, others := FirstTaken(b, count, entries, rest);
      EntriesWriteBack(tail, count - 1, others, rest);
      Prepended(entry, tail, others, rest);
    }
  }

  lemma Prepended(first: Entry, tail: Bytes, others: seq<Entry>, rest: Bytes)
    requires tail == EntriesBytes(others) + rest && IdsFit(others) && |first.nodeId| <= MAX_NODE_ID
    ensures EntryBytes(first) + tail == EntriesBytes([first] + others) + rest && IdsFit([first] + others)
  {
    EntriesCons(first, others);
    Associate(EntryBytes(first), EntriesBytes(others), rest);
  }

  lemma FirstTaken(b: Bytes, count: nat, entries: seq<Entry>, rest: Bytes)
    returns (entry: Entry, tail: Bytes, others: seq<Entry>)
    requires count > 0 && Taken(b, count, entries, rest)
    ensures b == EntryBytes(entry) + tail && |entry.nodeId| <= MAX_NODE_ID
    ensures Taken(tail, count - 1, others, rest) && entries == [entry] + others
  {
    EntryWritesBack(b);
    entry, tail := TakeEntry(b).value.0, TakeEntry(b).value.1;
    others := TakeEntries(tail, count - 1).value.0;
  }

  lemma EntriesCons(first: Entry, others: seq<Entry>)
    requires IdsFit(others) && |first.nodeId| <= MAX_NODE_ID
    ensures EntriesBytes([first] + others) == EntryBytes(first) + EntriesBytes(others) && IdsFit([first] + others)
  {
    assert ([first] + others)[1..] == others;
  }

  lemma ListReadsBack(list: ReputationList)
    requires |list.entries| <= MAX_ENTRIES && IdsFit(list.entries)
    ensures TakeList(ListBytes(list)) == Ok((list, []))
  {
    var c := EntriesBytes(list.entries);
    U64ReadsBack(list.round, PutU64(|list.entries|) + c);
    U64ReadsBack(|list.entries|, c);
    EntriesReadBack(list.entries, []);
    assert c + [] == c;
  }

  lemma ListWritesBack(b: Bytes)
    requires TakeList(b).Ok?
    ensures var t := TakeList(b).value;
      b == ListBytes(t.0) + t.1 && |t.0.entries| <= MAX_ENTRIES && IdsFit(t.0.entries)
  {
    U64WritesBack(b);
    var round := TakeU64(b).value;
    U64WritesBack(round.1);
    var count := TakeU64(round.1).value;
    var entries := TakeEntries(count.1, count.0).value;
    EntriesWriteBack(count.1, count.0, entries.0, entries.1);
  }

  lemma HeadReadsBack(h: Head, rest: Bytes)
    requires |h.shardId| <= MAX_SHARD_ID
    ensures
      TakeHead(PutU16(h.version) + (PutBytes(h.shardId) + (PutU64(h.finalizedWave) + (PutU64(h.round) + rest)))) ==
      Ok((h, rest))
  {
    var d := PutU64(h.round) + rest;
    var c := PutU64(h.finalizedWave) + d;
    var b := PutBytes(h.shardId) + c;
    U16ReadsBack(h.version, b);
    BytesReadBack(h.shardId, MAX_SHARD_ID, c);
    U64ReadsBack(h.finalizedWave, d);
    U64ReadsBack(h.round, rest);
  }

  lemma HeadWritesBack(b: Bytes)
    requires TakeHead(b).Ok?
    ensures var t := TakeHead(b).value;
      b == PutU16(t.0.version) + (PutBytes(t.0.shardId) + (PutU64(t.0.finalizedWave) + (PutU64(t.0.round) + t.1)))
  {
    U16WritesBack(b);
    var version := TakeU16(b).value;
    BytesWriteBack(version.1, MAX_SHARD_ID);
    var shardId := TakeBytes(version.1, MAX_SHARD_ID).value;
    U64WritesBack(shardId.1);
    U64WritesBack(TakeU64(shardId.1).value.1);
  }

  lemma CheckpointReadsBack(checkpoint: Option<Source>, version: u16, round: u64, rest: Bytes)
    requires checkpoint.None? <==> version == WAVE_VERSION
    requires checkpoint.Some? ==> checkpoint.value.round == round
    ensures TakeCheckpoint(SourceBytes(checkpoint) + rest, version, round) == Ok((checkpoint, rest))
  {
    if checkpoint.Some? {
      var source := checkpoint.value;
      assert SourceBytes(checkpoint) + rest == PutU64(source.prefixLength) + (source.prefixHash + rest);
      U64ReadsBack(source.prefixLength, source.prefixHash + rest);
      HashReadsBack(source.prefixHash, rest);
    } else {
      assert SourceBytes(checkpoint) + rest == rest;
    }
  }

  lemma CheckpointWritesBack(b: Bytes, version: u16, round: u64)
    requires TakeCheckpoint(b, version, round).Ok?
    ensures var t := TakeCheckpoint(b, version, round).value; b == SourceBytes(t.0) + t.1
  {
    if version != WAVE_VERSION {
      U64WritesBack(b);
      HashWritesBack(TakeU64(b).value.1);
    }
  }

  lemma PreviousReadsBack(previous: Option<Hash>, rest: Bytes)
    ensures TakePrevious(PreviousBytes(previous) + rest) == Ok((previous, rest))
  {
    if previous.Some? {
      assert PreviousBytes(previous) + rest == PutFlag(true) + (previous.value + rest);
      FlagReadsBack(true, previous.value + rest);
      HashReadsBack(previous.value, rest);
    } else {
      FlagReadsBack(false, rest);
    }
  }

  lemma PreviousWritesBack(b: Bytes)
    requires TakePrevious(b).Ok?
    ensures var t := TakePrevious(b).value; b == PreviousBytes(t.0) + t.1
  {
    FlagWritesBack(b);
    var present := TakeFlag(b).value;
    if present.0 { HashWritesBack(present.1); }
  }

  lemma RootsReadBack(r: Roots, rest: Bytes)
    ensures TakeRoots(r.config + (r.ratings + (r.penalties + (r.root + rest)))) == Ok((r, rest))
  {
    HashReadsBack(r.config, r.ratings + (r.penalties + (r.root + rest)));
    HashReadsBack(r.ratings, r.penalties + (r.root + rest));
    HashReadsBack(r.penalties, r.root + rest);
    HashReadsBack(r.root, rest);
  }

  lemma RootsWriteBack(b: Bytes)
    requires TakeRoots(b).Ok?
    ensures var t := TakeRoots(b).value; b == t.0.config + (t.0.ratings + (t.0.penalties + (t.0.root + t.1)))
  {
    HashWritesBack(b);
    var config := TakeHash(b).value;
    HashWritesBack(config.1);
    var ratings := TakeHash(config.1).value;
    HashWritesBack(ratings.1);
    HashWritesBack(TakeHash(ratings.1).value.1);
  }

  /** The payload of a block within the limits parses to that block. */
  lemma {:induction false} PayloadParses(block: ReputationBlock)
    requires WithinLimits(block) && ShardOk(block.header.shardId) && OriginOk(block.header)
    ensures Parse(Payload(block)) == Ok(block)
  {
    var h := block.header;
    var list := ListBytes(block.list);
    var roots := h.configHash + (h.ratingsHash + (h.penaltiesHash + (h.root + list)));
    var previous := PreviousBytes(h.previous) + roots;
    HeadReadsBack(Head(h.version, h.shardId, h.finalizedWave, h.round), SourceBytes(h.checkpoint) + previous);
    CheckpointReadsBack(h.checkpoint, h.version, h.round, previous);
    PreviousReadsBack(h.previous, roots);
    RootsReadBack(Roots(h.configHash, h.ratingsHash, h.penaltiesHash, h.root), list);
    ListReadsBack(block.list);
  }

  /** Whatever parses is the payload of the block it parses to, and that block is within the limits. */
  lemma {:induction false} ParsedIsPayload(b: Bytes)
    requires Parse(b).Ok?
    ensures b == Payload(Parse(b).value) && WithinLimits(Parse(b).value)
  {
    HeadWritesBack(b);
    var head := TakeHead(b).value;
    CheckpointWritesBack(head.1, head.0.version, head.0.round);
    var checkpoint := TakeCheckpoint(head.1, head.0.version, head.0.round).value;
    PreviousWritesBack(checkpoint.1);
    var previous := TakePrevious(checkpoint.1).value;
    RootsWriteBack(previous.1);
    var roots := TakeRoots(previous.1).value;
    ListWritesBack(roots.1);
    var list := TakeList(roots.1).value;
    assert ListBytes(list.0) + [] == ListBytes(list.0);
  }

  // ---- the envelope ----

  /** Magic, wire version and payload length. */
  function TakePrefix(bytes: Bytes): Result<((u16, u64), Bytes), BlockError> {
    var magic :- OnWire(Take(bytes, |MAGIC|));
    if magic.0 != MAGIC then Err(MalformedWire)
    else
      var version :- OnWire(TakeU16(magic.1));
      if version.0 != WAVE_VERSION && version.0 != CHECKPOINT_VERSION then Err(UnsupportedWireVersion(version.0))
      else
        var length :- OnWire(TakeU64(version.1));
        Ok(((version.0, length.0), length.1))
  }

  /** The payload, if the checksum after it is its own. */
  function CheckedBody(hash: Hasher, version: u16, length: nat, body: Bytes): Result<Bytes, BlockError>
    requires |body| == length + CHECKSUM_LENGTH
  {
    if body[length..] != Checksum(hash, version, body[..length]) then Err(ChecksumMismatch) else Ok(body[..length])
  }

  function OpenEnvelope(hash: Hasher, bytes: Bytes): Result<(u16, Bytes), BlockError> {
    if |bytes| > MAX_WIRE then Err(WireTooLarge)
    else if |bytes| < FIXED_LENGTH then Err(MalformedWire)
    else
      var prefix :- TakePrefix(bytes);
      var version, length := prefix.0.0, prefix.0.1;
      if length > MAX_PAYLOAD then Err(WireTooLarge)
      else if |prefix.1| != length + CHECKSUM_LENGTH then Err(MalformedWire)
      else
        var payload :- CheckedBody(hash, version, length, prefix.1);
        Ok((version, payload))
  }

  lemma EnvelopeOpens(hash: Hasher, version: u16, payload: Bytes)
    requires (version == WAVE_VERSION || version == CHECKPOINT_VERSION) && |payload| <= MAX_PAYLOAD
    ensures OpenEnvelope(hash, Envelope(hash, version, payload)) == Ok((version, payload))
  {
    var checksum := Checksum(hash, version, payload);
    var c := payload + checksum;
    var b := PutU64(|payload|) + c;
    TakeSplits(MAGIC, PutU16(version) + b);
    U16ReadsBack(version, b);
    U64ReadsBack(|payload|, c);
    assert c[..|payload|] == payload && c[|payload|..] == checksum;
  }

  lemma PrefixWritesBack(bytes: Bytes)
    requires TakePrefix(bytes).Ok?
    ensures var t := TakePrefix(bytes).value; bytes == MAGIC + (PutU16(t.0.0) + (PutU64(t.0.1) + t.1))
  {
    TakeJoins(bytes, |MAGIC|);
    var magic := Take(bytes, |MAGIC|).value;
    U16WritesBack(magic.1);
    U64WritesBack(TakeU16(magic.1).value.1);
  }

  lemma BodyWritesBack(hash: Hasher, version: u16, length: nat, body: Bytes)
    requires |body| == length + CHECKSUM_LENGTH && CheckedBody(hash, version, length, body).Ok?
    ensures var payload := CheckedBody(hash, version, length, body).value;
      |payload| == length && body == payload + Checksum(hash, version, payload)
  {
    assert body == body[..length] + body[length..];
  }

  lemma OpenedIsEnvelope(hash: Hasher, bytes: Bytes)
    requires OpenEnvelope(hash, bytes).Ok?
    ensures var t := OpenEnvelope(hash, bytes).value; bytes == Envelope(hash, t.0, t.1) && |t.1| <= MAX_PAYLOAD
  {
    PrefixWritesBack(bytes);
    var prefix := TakePrefix(bytes).value;
    BodyWritesBack(hash, prefix.0.0, prefix.0.1, prefix.1);
  }

  // ---- the decoder ----

  /** A method's outcome is the parse of what it had before it, and what is left is what the parse leaves. */
  ghost predicate Follows<T>(parse: Parsed<T>, r: Result<T, WireError>, rest: Bytes) {
    match parse
    case Ok(t) => r == Ok(t.0) && rest == t.1
    case Err(e) => r == Err(e)
  }

  class ReputationBlockDecoder {
    const bytes: Bytes
    var offset: nat

    ghost predicate Valid()
      reads this
    {
      offset <= |bytes|
    }

    ghost function Rest(): Bytes
      reads this
      requires Valid()
    {
      bytes[offset..]
    }

    constructor (bytes: Bytes)
      ensures Valid() && this.bytes == bytes && Rest() == bytes
    {
      this.bytes := bytes;
      offset := 0;
    }

    method ReadExact(length: nat) returns (r: Result<Bytes, WireError>)
      requires Valid()
      modifies this
      ensures Valid() && Follows(Take(old(Rest()), length), r, Rest())
    {
      var end := offset + length;
      if end > |bytes| { return Err(Malformed); }
      r := Ok(bytes[offset..end]);
      assert bytes[offset..][..length] == bytes[offset..end] && bytes[offset..][length..] == bytes[end..];
      offset := end;
    }

    method ReadU16() returns (r: Result<u16, WireError>)
      requires Valid()
      modifies this
      ensures Valid() && Follows(TakeU16(old(Rest())), r, Rest())
    {
      var field :- ReadExact(2);
      BeWritesBack(field);
      Widths();
      r := Ok(FromBe(field));
    }

    method ReadU64() returns (r: Result<u64, WireError>)
      requires Valid()
      modifies this
      ensures Valid() && Follows(TakeU64(old(Rest())), r, Rest())
    {
      var field :- ReadExact(8);
      BeWritesBack(field);
      Widths();
      r := Ok(FromBe(field));
    }

    method ReadHash() returns (r: Result<Hash, WireError>)
      requires Valid()
      modifies this
      ensures Valid() && Follows(TakeHash(old(Rest())), r, Rest())
    {
      var field :- ReadExact(32);
      r := Ok(field);
    }

    method ReadCount() returns (r: Result<u64, WireError>)
      requires Valid()
      modifies this
      ensures Valid() && Follows(TakeCount(old(Rest())), r, Rest())
    {
      var count :- ReadU64();
      if count > MAX_ENTRIES { return Err(TooLarge); }
      r := Ok(count);
    }

    method ReadBytes(max: nat) returns (r: Result<Bytes, WireError>)
      requires Valid()
      modifies this
      ensures Valid() && Follows(TakeBytes(old(Rest()), max), r, Rest())
    {
      var length :- ReadU64();
      if length > max { return Err(TooLarge); }
      r := ReadExact(length);
    }

    method ReadDiscriminant() returns (r: Result<bool, WireError>)
      requires Valid()
      modifies this
      ensures Valid() && Follows(TakeFlag(old(Rest())), r, Rest())
    {
      var field :- ReadExact(1);
      r := if field[0] == 0 then Ok(false) else if field[0] == 1 then Ok(true) else Err(Malformed);
    }

    method ReadPrefix() returns (r: Result<(u16, u64), BlockError>)
      requires Valid()
      modifies this
      ensures Valid()
      ensures match TakePrefix(old(Rest()))
        case Ok(t) => r == Ok(t.0) && Rest() == t.1
        case Err(e) => r == Err(e)
    {
      var start := ReadExact(|MAGIC|);
      var magic :- OnWire(start);
      if magic != MAGIC { return Err(MalformedWire); }
      var field := ReadU16();
      var version :- OnWire(field);
      if version != WAVE_VERSION && version != CHECKPOINT_VERSION { return Err(UnsupportedWireVersion(version)); }
      var size := ReadU64();
      var length :- OnWire(size);
      r := Ok((version, length));
    }

    method ReadBody(hash: Hasher, version: u16, length: nat) returns (r: Result<Bytes, BlockError>)
      requires Valid() && |Rest()| == length + CHECKSUM_LENGTH
      modifies this
      ensures Valid() && r == CheckedBody(hash, version, length, old(Rest()))
    {
      ghost var body := Rest();
      var payload := ReadExact(length);
      if payload.Err? { assert false; }
      assert payload.value == body[..length] && Rest() == body[length..];
      var checksum := ReadHash();
      if checksum.Err? { assert false; }
      assert checksum.value == body[length..];
      if checksum.value != Checksum(hash, version, payload.value) { return Err(ChecksumMismatch); }
      r := Ok(payload.value);
    }

    method ReadEntry() returns (r: Result<Entry, WireError>)
      requires Valid()
      modifies this
      ensures Valid() && Follows(TakeEntry(old(Rest())), r, Rest())
    {
      var nodeId :- ReadBytes(MAX_NODE_ID);
      var reputation :- ReadU64();
      var excluded :- ReadDiscriminant();
      var retained :- ReadU64();
      r := Ok(Entry(nodeId, reputation, retained, excluded));
    }

    /** Read `count` entries in a row. */
    method ReadEntries(count: nat) returns (r: Result<seq<Entry>, WireError>)
      requires Valid()
      modifies this
      ensures Valid() && Follows(TakeEntries(old(Rest()), count), r, Rest())
    {
      var entries: seq<Entry> := [];
      ghost var start := Rest();
      PendingStart(TakeEntries(start, count));
      for i := 0 to count
        invariant Valid()
        invariant Pending(TakeEntries(start, count), entries, TakeEntries(Rest(), count - i))
      {
        PendingStep(TakeEntries(start, count), entries, Rest(), count - i);
        var entry :- ReadEntry();
        entries := entries + [entry];
      }
      PendingEnd(TakeEntries(start, count), entries, Rest());
      r := Ok(entries);
    }

    method ReadList() returns (r: Result<ReputationList, WireError>)
      requires Valid()
      modifies this
      ensures Valid() && Follows(TakeList(old(Rest())), r, Rest())
    {
      var round :- ReadU64();
      var count :- ReadCount();
      var entries :- ReadEntries(count);
      r := Ok(ReputationList(round, entries));
    }

    method ReadCheckpoint(version: u16, round: u64) returns (r: Result<Option<Source>, WireError>)
      requires Valid()
      modifies this
      ensures Valid() && Follows(TakeCheckpoint(old(Rest()), version, round), r, Rest())
    {
      if version == WAVE_VERSION { return Ok(None); }
      var prefixLength :- ReadU64();
      var prefixHash :- ReadHash();
      r := Ok(Some(Source(round, prefixLength, prefixHash)));
    }

    method ReadPrevious() returns (r: Result<Option<Hash>, WireError>)
      requires Valid()
      modifies this
      ensures Valid() && Follows(TakePrevious(old(Rest())), r, Rest())
    {
      var present :- ReadDiscriminant();
      if !present { return Ok(None); }
      var hash :- ReadHash();
      r := Ok(Some(hash));
    }

    method ReadHead() returns (r: Result<Head, WireError>)
      requires Valid()
      modifies this
      ensures Valid() && Follows(TakeHead(old(Rest())), r, Rest())
    {
      var version :- ReadU16();
      var shardId :- ReadBytes(MAX_SHARD_ID);
      var finalizedWave :- ReadU64();
      var round :- ReadU64();
      r := Ok(Head(version, shardId, finalizedWave, round));
    }

    method ReadRoots() returns (r: Result<Roots, WireError>)
      requires Valid()
      modifies this
      ensures Valid() && Follows(TakeRoots(old(Rest())), r, Rest())
    {
      var config :- ReadHash();
      var ratings :- ReadHash();
      var penalties :- ReadHash();
      var root :- ReadHash();
      r := Ok(Roots(config, ratings, penalties, root));
    }

    method ReadHeader() returns (r: Result<Header, BlockError>)
      requires Valid()
      modifies this
      ensures Valid()
      ensures match TakeHeader(old(Rest()))
        case Ok(t) => r == Ok(t.0) && Rest() == t.1
        case Err(e) => r == Err(e)
    {
      var read := ReadHead();
      var head :- OnWire(read);
      if head.version != WAVE_VERSION && head.version != CHECKPOINT_VERSION {
        return Err(UnsupportedVersion(head.version));
      }
      var source := ReadCheckpoint(head.version, head.round);
      var checkpoint :- OnWire(source);
      var hash := ReadPrevious();
      var previous :- OnWire(hash);
      var fields := ReadRoots();
      var roots :- OnWire(fields);
      r := Ok(Header(head.version, head.shardId, head.finalizedWave, checkpoint, head.round, previous,
                     roots.config, roots.ratings, roots.penalties, roots.root));
    }
  }

  /** What is still to be read completes what was read. */
  ghost predicate Pending(whole: Parsed<seq<Entry>>, entries: seq<Entry>, remaining: Parsed<seq<Entry>>) {
    match remaining
    case Ok(t) => whole == Ok((entries + t.0, t.1))
    case Err(e) => whole == Err(e)
  }

  lemma PendingStart(whole: Parsed<seq<Entry>>)
    ensures Pending(whole, [], whole)
  {
    if whole.Ok? { assert [] + whole.value.0 == whole.value.0; }
  }

  lemma PendingStep(whole: Parsed<seq<Entry>>, entries: seq<Entry>, b: Bytes, count: nat)
    requires count > 0 && Pending(whole, entries, TakeEntries(b, count))
    ensures match TakeEntry(b)
      case Ok(t) => Pending(whole, entries + [t.0], TakeEntries(t.1, count - 1))
      case Err(e) => whole == Err(e)
  {
    if TakeEntry(b).Ok? {
      var t := TakeEntry(b).value;
      var others := TakeEntries(t.1, count - 1);
      if others.Ok? { assert entries + ([t.0] + others.value.0) == (entries + [t.0]) + others.value.0; }
    }
  }

  lemma PendingEnd(whole: Parsed<seq<Entry>>, entries: seq<Entry>, rest: Bytes)
    requires Pending(whole, entries, TakeEntries(rest, 0))
    ensures whole == Ok((entries, rest))
  {
    assert entries + [] == entries;
  }

  // ---- decoding ----

  /** Parse the whole payload, then check the block. */
  method DecodePayload(hash: Hasher, bytes: Bytes) returns (r: Result<ReputationBlock, BlockError>)
    ensures r.Ok? <==> Parse(bytes).Ok? && StructurallyValid(hash, Parse(bytes).value)
    ensures r.Ok? ==> r.value == Parse(bytes).value
  {
    if |bytes| > MAX_PAYLOAD { return Err(WireTooLarge); }
    var decoder := new ReputationBlockDecoder(bytes);
    var header :- decoder.ReadHeader();
    var read := decoder.ReadList();
    var list :- OnWire(read);
    var checked :- ValidateEntries(list.entries);
    if |decoder.bytes| - decoder.offset != 0 { return Err(MalformedWire); }
    var block := ReputationBlock(header, list);
    var valid :- ValidateReputationBlock(hash, block);
    r := Ok(block);
  }

  /** Check the envelope and its checksum, then decode the payload. */
  method DecodeReputationBlock(hash: Hasher, bytes: Bytes) returns (r: Result<ReputationBlock, BlockError>)
    ensures r.Ok? ==> Encodable(hash, r.value) && bytes == Encoded(hash, r.value)
    ensures forall block :: Encodable(hash, block) && bytes == Encoded(hash, block) ==> r == Ok(block)
  {
    forall block | Encodable(hash, block) && bytes == Encoded(hash, block) ensures Decodes(hash, bytes, block) {
      EncodedDecodes(hash, block);
    }
    var unwrapped := Unwrap(hash, bytes);
    if unwrapped.Err? { return Err(unwrapped.error); }
    OpenedIsEnvelope(hash, bytes);
    var version, payload := unwrapped.value.0, unwrapped.value.1;
    var decoded := DecodePayload(hash, payload);
    if decoded.Err? { return decoded; }
    ParsedIsPayload(payload);
    if decoded.value.header.version != version { return Err(MalformedWire); }
    r := decoded;
  }

  function Encoded(hash: Hasher, block: ReputationBlock): Bytes {
    Envelope(hash, block.header.version, Payload(block))
  }

  /** Opening the bytes gives the payload, and parsing the payload gives the block. */
  ghost predicate Decodes(hash: Hasher, bytes: Bytes, block: ReputationBlock) {
    OpenEnvelope(hash, bytes) == Ok((block.header.version, Payload(block))) && Parse(Payload(block)) == Ok(block)
  }

  lemma EncodedDecodes(hash: Hasher, block: ReputationBlock)
    requires Encodable(hash, block)
    ensures Decodes(hash, Encoded(hash, block), block)
  {
    EnvelopeOpens(hash, block.header.version, Payload(block));
    PayloadParses(block);
  }

  /** Distinct blocks have distinct wire forms. */
  lemma EncodingIsInjective(hash: Hasher, a: ReputationBlock, b: ReputationBlock)
    requires Encodable(hash, a) && Encodable(hash, b)
    ensures Encoded(hash, a) == Encoded(hash, b) <==> a == b
  {
    EncodedDecodes(hash, a);
    EncodedDecodes(hash, b);
  }

  /** Read the envelope fields in order. */
  method Unwrap(hash: Hasher, bytes: Bytes) returns (r: Result<(u16, Bytes), BlockError>)
    ensures r == OpenEnvelope(hash, bytes)
  {
    if |bytes| > MAX_WIRE { return Err(WireTooLarge); }
    if |bytes| < FIXED_LENGTH { return Err(MalformedWire); }
    var envelope := new ReputationBlockDecoder(bytes);
    var prefix :- envelope.ReadPrefix();
    var version, length := prefix.0, prefix.1;
    if length > MAX_PAYLOAD { return Err(WireTooLarge); }
    if |envelope.bytes| - envelope.offset != length + CHECKSUM_LENGTH { return Err(MalformedWire); }
    var payload :- envelope.ReadBody(hash, version, length);
    r := Ok((version, payload));
  }

  // ---- encoding ----

  /**
   * Append to the buffer unless the payload would grow past its limit. `whole` is the payload
   * being written and `rest` what follows these bytes in it.
   */
  method PutFixed(output: Bytes, bytes: Bytes, ghost rest: Bytes, ghost whole: Bytes)
    returns (r: Result<Bytes, BlockError>)
    requires whole == output + (bytes + rest)
    ensures r.Ok? ==> r.value + rest == whole && |r.value| <= MAX_PAYLOAD
    ensures r.Err? ==> |whole| > MAX_PAYLOAD && r.error == WireTooLarge
  {
    Associate(output, bytes, rest);
    if |output| + |bytes| > MAX_PAYLOAD { return Err(WireTooLarge); }
    r := Ok(output + bytes);
  }

  method PutPrefixed(output: Bytes, bytes: Bytes, ghost rest: Bytes, ghost whole: Bytes)
    returns (r: Result<Bytes, BlockError>)
    requires whole == output + (PutBytes(bytes) + rest)
    ensures r.Ok? ==> r.value + rest == whole && |r.value| <= MAX_PAYLOAD
    ensures r.Err? ==> |whole| > MAX_PAYLOAD && r.error == WireTooLarge
  {
    Associate(PutU64(|bytes|), bytes, rest);
    var length :- PutFixed(output, PutU64(|bytes|), bytes + rest, whole);
    r := PutFixed(length, bytes, rest, whole);
  }

  method PutEntry(output: Bytes, entry: Entry, ghost rest: Bytes, ghost whole: Bytes)
    returns (r: Result<Bytes, BlockError>)
    requires whole == output + (EntryBytes(entry) + rest)
    ensures r.Ok? ==> r.value + rest == whole && |r.value| <= MAX_PAYLOAD && |entry.nodeId| <= MAX_NODE_ID
    ensures r.Err? ==> r.error == WireTooLarge && (|whole| > MAX_PAYLOAD || |entry.nodeId| > MAX_NODE_ID)
  {
    if |entry.nodeId| > MAX_NODE_ID { return Err(WireTooLarge); }
    ghost var c := PutU64(entry.retained) + rest;
    ghost var b := PutFlag(entry.excluded) + c;
    ghost var a := PutU64(entry.reputation) + b;
    assert EntryBytes(entry) + rest == PutBytes(entry.nodeId) + a;
    var nodeId :- PutPrefixed(output, entry.nodeId, a, whole);
    var reputation :- PutFixed(nodeId, PutU64(entry.reputation), b, whole);
    var excluded :- PutFixed(reputation, PutFlag(entry.excluded), c, whole);
    r := PutFixed(excluded, PutU64(entry.retained), rest, whole);
  }

  lemma EntriesSplit(entries: seq<Entry>, i: nat)
    requires i < |entries|
    ensures EntriesBytes(entries[i..]) == EntryBytes(entries[i]) + EntriesBytes(entries[i + 1..])
  {
    assert entries[i..][1..] == entries[i + 1..];
  }

  /** Append the round, the count and every entry. */
  method PutList(output: Bytes, list: ReputationList, ghost whole: Bytes) returns (r: Result<Bytes, BlockError>)
    requires whole == output + ListBytes(list)
    ensures r.Ok? <==>
      EntriesOk(list.entries) && |list.entries| <= MAX_ENTRIES && IdsFit(list.entries) && |whole| <= MAX_PAYLOAD
    ensures r.Ok? ==> r.value == whole
  {
    var checked :- ValidateEntries(list.entries);
    var entries := list.entries;
    ghost var tail := PutU64(|entries|) + EntriesBytes(entries);
    var round :- PutFixed(output, PutU64(list.round), tail, whole);
    if |entries| > MAX_ENTRIES { return Err(WireTooLarge); }
    var buffer :- PutFixed(round, PutU64(|entries|), EntriesBytes(entries), whole);
    assert entries[0..] == entries;
    for i := 0 to |entries|
      invariant whole == buffer + EntriesBytes(entries[i..]) && |buffer| <= MAX_PAYLOAD
      invariant forall k :: 0 <= k < i ==> |entries[k].nodeId| <= MAX_NODE_ID
    {
      EntriesSplit(entries, i);
      buffer :- PutEntry(buffer, entries[i], EntriesBytes(entries[i + 1..]), whole);
    }
    assert whole == buffer;
    r := Ok(buffer);
  }

  /** Everything after the round. */
  function Tail(block: ReputationBlock): Bytes {
    var h := block.header;
    SourceBytes(h.checkpoint) + (PreviousBytes(h.previous)
      + (h.configHash + (h.ratingsHash + (h.penaltiesHash + (h.root + ListBytes(block.list))))))
  }

  method PutHead(block: ReputationBlock, ghost whole: Bytes) returns (r: Result<Bytes, BlockError>)
    requires whole == Payload(block)
    ensures r.Ok? ==> r.value + Tail(block) == whole && |r.value| <= MAX_PAYLOAD
    ensures r.Err? ==> |whole| > MAX_PAYLOAD
  {
    var h := block.header;
    ghost var c := PutU64(h.round) + Tail(block);
    ghost var b := PutU64(h.finalizedWave) + c;
    ghost var a := PutBytes(h.shardId) + b;
    assert whole == [] + (PutU16(h.version) + a);
    var version :- PutFixed([], PutU16(h.version), a, whole);
    var shardId :- PutPrefixed(version, h.shardId, b, whole);
    var finalizedWave :- PutFixed(shardId, PutU64(h.finalizedWave), c, whole);
    r := PutFixed(finalizedWave, PutU64(h.round), Tail(block), whole);
  }

  method PutCheckpoint(output: Bytes, checkpoint: Option<Source>, ghost rest: Bytes, ghost whole: Bytes)
    returns (r: Result<Bytes, BlockError>)
    requires whole == output + (SourceBytes(checkpoint) + rest) && |output| <= MAX_PAYLOAD
    ensures r.Ok? ==> r.value + rest == whole && |r.value| <= MAX_PAYLOAD
    ensures r.Err? ==> |whole| > MAX_PAYLOAD
  {
    if checkpoint == None {
      assert SourceBytes(checkpoint) + rest == rest;
      return Ok(output);
    }
    var source := checkpoint.value;
    Associate(PutU64(source.prefixLength), source.prefixHash, rest);
    var prefixLength :- PutFixed(output, PutU64(source.prefixLength), source.prefixHash + rest, whole);
    r := PutFixed(prefixLength, source.prefixHash, rest, whole);
  }

  method PutPrevious(output: Bytes, previous: Option<Hash>, ghost rest: Bytes, ghost whole: Bytes)
    returns (r: Result<Bytes, BlockError>)
    requires whole == output + (PreviousBytes(previous) + rest)
    ensures r.Ok? ==> r.value + rest == whole && |r.value| <= MAX_PAYLOAD
    ensures r.Err? ==> |whole| > MAX_PAYLOAD
  {
    match previous {
      case Some(hash) =>
        Associate(PutFlag(true), hash, rest);
        var present :- PutFixed(output, [1], hash + rest, whole);
        r := PutFixed(present, hash, rest, whole);
      case None =>
        r := PutFixed(output, [0], rest, whole);
    }
  }

  method PutRoots(output: Bytes, h: Header, ghost rest: Bytes, ghost whole: Bytes)
    returns (r: Result<Bytes, BlockError>)
    requires whole == output + (h.configHash + (h.ratingsHash + (h.penaltiesHash + (h.root + rest))))
    ensures r.Ok? ==> r.value + rest == whole && |r.value| <= MAX_PAYLOAD
    ensures r.Err? ==> |whole| > MAX_PAYLOAD
  {
    var config :- PutFixed(output, h.configHash, h.ratingsHash + (h.penaltiesHash + (h.root + rest)), whole);
    var ratings :- PutFixed(config, h.ratingsHash, h.penaltiesHash + (h.root + rest), whole);
    var penalties :- PutFixed(ratings, h.penaltiesHash, h.root + rest, whole);
    r := PutFixed(penalties, h.root, rest, whole);
  }

  method EncodePayload(hash: Hasher, block: ReputationBlock) returns (r: Result<Bytes, BlockError>)
    ensures r.Ok? <==> Encodable(hash, block)
    ensures r.Ok? ==> r.value == Payload(block)
  {
    var valid :- ValidateReputationBlock(hash, block);
    var h := block.header;
    ghost var whole, list := Payload(block), ListBytes(block.list);
    ghost var roots := h.configHash + (h.ratingsHash + (h.penaltiesHash + (h.root + list)));
    var head :- PutHead(block, whole);
    var checkpoint :- PutCheckpoint(head, h.checkpoint, PreviousBytes(h.previous) + roots, whole);
    var previous :- PutPrevious(checkpoint, h.previous, roots, whole);
    var header :- PutRoots(previous, h, list, whole);
    r := PutList(header, block.list, whole);
  }

  lemma Nested(a: Bytes, b: Bytes, c: Bytes, d: Bytes, e: Bytes)
    ensures (((a + b) + c) + d) + e == a + (b + (c + (d + e)))
  {
    Associate(c, d, e);
    Associate(a + b, c, d + e);
    Associate(a + b + c, d, e);
    Associate(a, b, c + (d + e));
  }

  /** A block is encoded exactly when it is valid and within the limits. */
  method EncodeReputationBlock(hash: Hasher, block: ReputationBlock) returns (r: Result<Bytes, BlockError>)
    ensures r.Ok? <==> Encodable(hash, block)
    ensures r.Ok? ==> r.value == Encoded(hash, block)
  {
    var payload :- EncodePayload(hash, block);
    var version := block.header.version;
    var checksum := Checksum(hash, version, payload);
    Nested(MAGIC, PutU16(version), PutU64(|payload|), payload, checksum);
    r := Ok((((MAGIC + PutU16(version)) + PutU64(|payload|)) + payload) + checksum);
  }

  /** Encode then decode gives the block back. */
  method RoundTrip(hash: Hasher, block: ReputationBlock) returns (r: Result<ReputationBlock, BlockError>)
    ensures r.Ok? <==> Encodable(hash, block)
    ensures r.Ok? ==> r.value == block
  {
    var bytes :- EncodeReputationBlock(hash, block);
    r := DecodeReputationBlock(hash, bytes);
  }

  /** Decode then encode gives the bytes back. */
  method Canonical(hash: Hasher, bytes: Bytes) returns (r: Result<Bytes, BlockError>)
    ensures r.Ok? <==> exists block :: Encodable(hash, block) && bytes == Encoded(hash, block)
    ensures r.Ok? ==> r.value == bytes
  {
    var block :- DecodeReputationBlock(hash, bytes);
    r := EncodeReputationBlock(hash, block);
  }
}
