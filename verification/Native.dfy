/**
 * Native block messages, their translation, and the two-way identity index:
 * crates/cordial-f1r3node-adapter/src/grpc_ingest.rs.
 */
module Native {
  import opened Basics
  import opened Lace

  datatype Justification = Justification(latestBlockHash: Bytes, validator: Bytes)

  datatype NativeMessage = NativeMessage(
    blockHash: Bytes,
    parents: seq<Bytes>,
    justifications: seq<Justification>,
    blockNumber: int,
    sender: Bytes,
    sig: Bytes,
    sigAlgorithm: Bytes,
    seqNum: int,
    body: Bytes)

  /** The host's hash function, signature check and field translation, taken as given. */
  datatype Mapper = Mapper(
    wireHash: NativeMessage -> Hash,
    signatureOk: NativeMessage -> bool,
    translate: NativeMessage -> Option<Bytes>,
    blockHash: (Bytes, Content) -> Hash)

  datatype Validated = Validated(block: Block, wireHash: Hash)

  datatype NativeError =
    | InvalidShape | WireHashMismatch | SignatureRejected | TranslationFailed
    | UnresolvedParent(Bytes) | InvalidParentKey | InvalidJustificationKey | CreatorMismatch
    | InvalidIdentity | WireHashTaken | WireBlocksCollapse
    | GenesisTooLate | MissingMapping | AdapterRejected | PersistenceFailed | MirrorRejected

  /** The hashes a message depends on: its parents and its justifications. */
  function Dependencies(msg: NativeMessage): set<Bytes> {
    (set p | p in msg.parents) + (set j | j in msg.justifications :: j.latestBlockHash)
  }

  // ---- the index ----

  datatype NativeIndex = NativeIndex(byWireHash: map<Bytes, Identity>, byIdentity: map<Identity, Bytes>)

  const EMPTY_INDEX := NativeIndex(map[], map[])

  /** The two maps are mutual inverses. */
  ghost predicate Inverse(index: NativeIndex) {
    && (forall h :: h in index.byWireHash ==>
      index.byWireHash[h] in index.byIdentity && index.byIdentity[index.byWireHash[h]] == h)
    && (forall id :: id in index.byIdentity ==>
      index.byIdentity[id] in index.byWireHash && index.byWireHash[index.byIdentity[id]] == id)
  }

  function CheckCandidate(mapper: Mapper, index: NativeIndex, v: Validated): Option<NativeError> {
    var id := v.block.identity;
    if id.signature != [] || id.hash != mapper.blockHash(id.creator, v.block.content) then Some(InvalidIdentity)
    else if v.wireHash in index.byWireHash && index.byWireHash[v.wireHash] != id then Some(WireHashTaken)
    else if id in index.byIdentity && index.byIdentity[id] != v.wireHash then Some(WireBlocksCollapse)
    else None
  }

  function Recorded(index: NativeIndex, v: Validated): NativeIndex {
    NativeIndex(index.byWireHash[v.wireHash := v.block.identity], index.byIdentity[v.block.identity := v.wireHash])
  }

  /** Recording a checked candidate keeps the maps inverse; recording a known one changes nothing. */
  lemma RecordedIsInverse(mapper: Mapper, index: NativeIndex, v: Validated)
    requires Inverse(index) && CheckCandidate(mapper, index, v).None?
    ensures Inverse(Recorded(index, v))
    ensures v.wireHash in index.byWireHash ==> Recorded(index, v) == index
  {}

  // ---- parents ----

  predicate KeyLength(key: Bytes) {
    |key| == 33 || |key| == 65
  }

  /** Why one parent hash is refused, if it is. */
  function ParentRefusal(msg: NativeMessage, index: NativeIndex, h: Bytes): Option<NativeError> {
    if h !in index.byWireHash then Some(UnresolvedParent(h))
    else
      var creator := index.byWireHash[h].creator;
      if creator != [] && !KeyLength(creator) then Some(InvalidParentKey)
      else JustificationRefusal(msg.justifications, creator, h)
  }

  /** The justifications that name this parent, in message order. */
  function JustificationRefusal(js: seq<Justification>, creator: Bytes, h: Bytes): Option<NativeError> {
    if js == [] then None
    else if js[0].latestBlockHash != h then JustificationRefusal(js[1..], creator, h)
    else if !KeyLength(js[0].validator) then Some(InvalidJustificationKey)
    else if creator != [] && js[0].validator != creator then Some(CreatorMismatch)
    else JustificationRefusal(js[1..], creator, h)
  }

  lemma {:induction false} OnlyParentsUnresolved(js: seq<Justification>, creator: Bytes, h: Bytes)
    ensures var r := JustificationRefusal(js, creator, h);
      r.None? || r.value == InvalidJustificationKey || r.value == CreatorMismatch
  {
    if js != [] { OnlyParentsUnresolved(js[1..], creator, h); }
  }

  /** A refusal before the adapter: one that says an ancestor is missing is given only when one is. */
  predicate Blames(e: NativeError, msg: NativeMessage, index: NativeIndex) {
    match e
    case UnresolvedParent(h) => h in Dependencies(msg) && h !in index.byWireHash
    case AdapterRejected => false
    case PersistenceFailed => false
    case MirrorRejected => false
    case _ => true
  }

  /** Replace every parent hash by its accepted identity, in some order; the first refusal stops. */
  method ResolveParents(msg: NativeMessage, index: NativeIndex) returns (r: Result<set<Identity>, NativeError>)
    ensures r.Ok? <==> forall h :: h in Dependencies(msg) ==> ParentRefusal(msg, index, h).None?
    ensures r.Ok? ==> Dependencies(msg) <= index.byWireHash.Keys
    ensures r.Ok? ==> r.value == set h | h in Dependencies(msg) :: index.byWireHash[h]
    ensures r.Err? ==> exists h :: h in Dependencies(msg) && ParentRefusal(msg, index, h) == Some(r.error)
    ensures r.Err? ==> Blames(r.error, msg, index)
  {
    var resolved: set<Identity> := {};
    var rest := Dependencies(msg);
    ghost var done: set<Bytes> := {};
    while rest != {}
      invariant done + rest == Dependencies(msg) && AllResolve(msg, index, done)
      invariant resolved == set h | h in done :: index.byWireHash[h]
      decreases |rest|
    {
      var h :| h in rest;
      var refusal := ParentRefusal(msg, index, h);
      if refusal.Some? {
        OneRefusal(msg, index, h);
        return Err(refusal.value);
      }
      assert h in index.byWireHash;
      resolved := resolved + {index.byWireHash[h]};
      rest, done := rest - {h}, done + {h};
    }
    assert done == Dependencies(msg);
    r := Ok(resolved);
  }

  /** No parent in `hashes` is refused. */
  ghost predicate AllResolve(msg: NativeMessage, index: NativeIndex, hashes: set<Bytes>) {
    forall h :: h in hashes ==> h in index.byWireHash && ParentRefusal(msg, index, h).None?
  }

  lemma OneRefusal(msg: NativeMessage, index: NativeIndex, h: Bytes)
    requires h in Dependencies(msg) && ParentRefusal(msg, index, h).Some?
    ensures Blames(ParentRefusal(msg, index, h).value, msg, index)
  {
    if h in index.byWireHash { OnlyParentsUnresolved(msg.justifications, index.byWireHash[h].creator, h); }
  }

  // ---- translation ----

  predicate GenesisShape(msg: NativeMessage) {
    msg.blockNumber == 0 && msg.parents == [] && msg.justifications == []
    && msg.sender == [] && msg.sig == [] && msg.sigAlgorithm == [] && msg.seqNum == 0
  }

  /** The Cordial block of a message whose predecessors are known. */
  function Translated(mapper: Mapper, msg: NativeMessage, payload: Bytes, preds: set<Identity>): Block {
    var content := Content(payload, preds);
    Block(Identity(mapper.blockHash(msg.sender, content), msg.sender, []), content)
  }

  method FromProtobufWithParents(mapper: Mapper, msg: NativeMessage, index: NativeIndex)
    returns (r: Result<Validated, NativeError>)
    ensures r.Ok? ==>
      && r.value.wireHash == msg.blockHash && Dependencies(msg) <= index.byWireHash.Keys && mapper.translate(msg).Some?
      && r.value.block == Translated(mapper, msg, mapper.translate(msg).value,
        set h | h in Dependencies(msg) :: index.byWireHash[h])
    ensures r.Err? ==> Blames(r.error, msg, index)
    ensures r.Ok? <==>
      && msg.blockHash == mapper.wireHash(msg) && mapper.signatureOk(msg) && mapper.translate(msg).Some?
      && (forall h :: h in Dependencies(msg) ==> |h| == 32 && ParentRefusal(msg, index, h).None?)
  {
    var hash := mapper.wireHash(msg);
    if msg.blockHash != hash { return Err(WireHashMismatch); }
    if !mapper.signatureOk(msg) { return Err(SignatureRejected); }
    var payload := mapper.translate(msg);
    if payload.None? || exists h :: h in Dependencies(msg) && |h| != 32 { return Err(TranslationFailed); }
    var preds := ResolveParents(msg, index);
    if preds.Err? { return Err(preds.error); }
    r := Ok(Validated(Translated(mapper, msg, payload.value, preds.value), hash));
  }

  method FromTrustedUnsignedGenesis(mapper: Mapper, msg: NativeMessage) returns (r: Result<Validated, NativeError>)
    ensures r.Ok? <==> GenesisShape(msg) && msg.blockHash == mapper.wireHash(msg) && mapper.translate(msg).Some?
    ensures r.Ok? ==>
      r.value == Validated(Translated(mapper, msg, mapper.translate(msg).value, {}), mapper.wireHash(msg))
    ensures r.Err? ==> r.error in {InvalidShape, WireHashMismatch, TranslationFailed}
  {
    if !GenesisShape(msg) { return Err(InvalidShape); }
    var hash := mapper.wireHash(msg);
    if msg.blockHash != hash { return Err(WireHashMismatch); }
    var payload := mapper.translate(msg);
    if payload.None? { return Err(TranslationFailed); }
    r := Ok(Validated(Translated(mapper, msg, payload.value, {}), hash));
  }
}
