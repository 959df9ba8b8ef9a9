/**
 * The structural mutations of crates/cordial-miners-core/src/blocklace.rs on values, and what
 * every run of the two insert methods keeps.
 */
module Dags {
  import opened Basics
  import opened Lace
  import opened Reachability

  /** The structural state of a blocklace. */
  datatype Dag = Dag(
    blocks: Blocks,
    trusted: map<Identity, set<Identity>>,
    checkpoint: Option<Identity>,
    checkpointDepth: Option<nat>,
    orderPrefix: seq<Identity>,
    weightedPrefix: seq<Identity>)

  const EMPTY := Dag(map[], map[], None, None, [], [])

  /** A stored identity other than `id` with its content hash and creator. */
  predicate HasVariant(blocks: Blocks, id: Identity) {
    id !in blocks && exists k :: k in blocks && SameConsensus(k, id)
  }

  function Unresolved(blocks: Blocks, refs: set<Identity>): set<Identity> {
    set p | p in refs && !Resolves(blocks, p)
  }

  /** Boundary sets cut down to what still does not resolve; emptied ones dropped. */
  function Retained(blocks: Blocks, trusted: map<Identity, set<Identity>>): map<Identity, set<Identity>> {
    map id | id in trusted && Unresolved(blocks, trusted[id]) != {} :: Unresolved(blocks, trusted[id])
  }

  /** The commit step: replace the content, forget the block's own boundary, clear what now resolves. */
  function Committed(d: Dag, id: Identity, content: Content): Dag {
    var blocks := d.blocks[id := content];
    d.(blocks := blocks, trusted := Retained(blocks, d.trusted - {id}))
  }

  datatype InsertError = InvalidSignature | ClosureViolation | IdentityConflict

  /** Why a strict insert is refused, in the order the checks run. */
  function StrictRefusal(d: Dag, block: Block, verified: bool): Option<InsertError> {
    if !verified then Some(InvalidSignature)
    else if Unresolved(d.blocks, block.content.preds) != {} then Some(ClosureViolation)
    else if HasVariant(d.blocks, block.identity) then Some(IdentityConflict)
    else None
  }

  function TrustedRefusal(d: Dag, block: Block, verified: bool): Option<InsertError> {
    if !verified then Some(InvalidSignature)
    else if HasVariant(d.blocks, block.identity) then Some(IdentityConflict)
    else None
  }

  /** A bounded-view insert: commit, then record what was missing before the commit. */
  function WithBoundary(d: Dag, block: Block): Dag {
    var missing := Unresolved(d.blocks, block.content.preds);
    var d' := Committed(d, block.identity, block.content);
    if missing == {} then d' else d'.(trusted := d'.trusted[block.identity := missing])
  }

  datatype InsertOp = Strict(block: Block, verified: bool) | Bounded(block: Block, verified: bool)

  function Apply(d: Dag, op: InsertOp): Dag {
    match op
    case Strict(block, verified) =>
      if StrictRefusal(d, block, verified).None? then Committed(d, block.identity, block.content) else d
    case Bounded(block, verified) =>
      if TrustedRefusal(d, block, verified).None? then WithBoundary(d, block) else d
  }

  function Run(d: Dag, ops: seq<InsertOp>): Dag {
    if ops == [] then d else Apply(Run(d, ops[..|ops| - 1]), ops[|ops| - 1])
  }

  // ---- resolution under insertion ----

  /** A reference that resolves keeps resolving to the same block. */
  lemma ResolutionStable(blocks: Blocks, id: Identity, content: Content, reference: Identity)
    requires OnePerConsensus(blocks) && !HasVariant(blocks, id) && Resolves(blocks, reference)
    ensures Resolve(blocks[id := content], reference) == Resolve(blocks, reference)
  {
    var k := Resolve(blocks, reference).value;
    assert ResolvesTo(blocks, reference, k);
    assert ResolvesTo(blocks[id := content], reference, k);
  }

  /** A reference that did not resolve does so after the insert exactly when it names the new block. */
  lemma NewlyResolved(blocks: Blocks, id: Identity, content: Content, reference: Identity)
    requires OnePerConsensus(blocks) && !HasVariant(blocks, id) && !Resolves(blocks, reference)
    ensures Resolves(blocks[id := content], reference) <==> Names(reference, id)
  {
    var blocks' := blocks[id := content];
    ResolveWhenUnique(blocks, reference);
    InsertKeepsUnique(blocks, id, content);
    ResolveWhenUnique(blocks', reference);
    if Names(reference, id) { assert id in blocks' && SameConsensus(id, reference); }
  }

  /** `reference` is `id` or its unsigned form. */
  predicate Names(reference: Identity, id: Identity) {
    reference == id || (reference.signature == [] && SameConsensus(reference, id))
  }

  lemma InsertKeepsUnique(blocks: Blocks, id: Identity, content: Content)
    requires OnePerConsensus(blocks) && !HasVariant(blocks, id)
    ensures OnePerConsensus(blocks[id := content])
  {}

  // ---- boundary metadata ----

  /** Exactly the unresolved predecessors of every block that has some. */
  function ExactBoundary(blocks: Blocks): map<Identity, set<Identity>> {
    map id | id in blocks && Unresolved(blocks, blocks[id].preds) != {} :: Unresolved(blocks, blocks[id].preds)
  }

  ghost predicate WellKept(d: Dag) {
    OnePerConsensus(d.blocks) && d.trusted == ExactBoundary(d.blocks)
  }

  predicate SelfReferential(block: Block) {
    exists p :: p in block.content.preds && Names(p, block.identity)
  }

  lemma UnresolvedShrinks(blocks: Blocks, id: Identity, content: Content, refs: set<Identity>)
    requires OnePerConsensus(blocks) && !HasVariant(blocks, id)
    ensures Unresolved(blocks[id := content], Unresolved(blocks, refs)) == Unresolved(blocks[id := content], refs)
  {
    forall p | p in refs && Resolves(blocks, p) ensures Resolves(blocks[id := content], p) {
      ResolutionStable(blocks, id, content, p);
    }
  }

  /** The commit step leaves every other block's metadata exact. */
  lemma CommitKeepsOthers(d: Dag, id: Identity, content: Content)
    requires WellKept(d) && !HasVariant(d.blocks, id)
    ensures var d' := Committed(d, id, content);
      OnePerConsensus(d'.blocks) && d'.trusted == ExactBoundary(d'.blocks) - {id}
  {
    var d' := Committed(d, id, content);
    InsertKeepsUnique(d.blocks, id, content);
    forall k | k in d.blocks && k != id
      ensures Unresolved(d'.blocks, Unresolved(d.blocks, d.blocks[k].preds)) ==
        Unresolved(d'.blocks, d'.blocks[k].preds)
    {
      UnresolvedShrinks(d.blocks, id, content, d.blocks[k].preds);
    }
    CommitEntries(d, id, content);
  }

  lemma CommitEntries(d: Dag, id: Identity, content: Content)
    requires d.trusted == ExactBoundary(d.blocks)
    requires var blocks' := d.blocks[id := content]; forall k :: k in d.blocks && k != id ==>
      Unresolved(blocks', Unresolved(d.blocks, d.blocks[k].preds)) == Unresolved(blocks', blocks'[k].preds)
    ensures var d' := Committed(d, id, content); d'.trusted == ExactBoundary(d'.blocks) - {id}
  {
    var d' := Committed(d, id, content);
    var exact := ExactBoundary(d'.blocks) - {id};
    forall k ensures k in d'.trusted <==> k in exact {
      if k in d.blocks && k != id && k !in d.trusted {
        assert Unresolved(d.blocks, d.blocks[k].preds) == {};
      }
    }
  }

  /** A strict insert keeps the metadata exact, self-references included. */
  lemma {:induction false} StrictKeeps(d: Dag, block: Block, verified: bool)
    requires WellKept(d) && StrictRefusal(d, block, verified).None?
    ensures WellKept(Committed(d, block.identity, block.content))
  {
    var id, content := block.identity, block.content;
    CommitKeepsOthers(d, id, content);
    UnresolvedShrinks(d.blocks, id, content, content.preds);
    var d' := Committed(d, id, content);
    assert id !in ExactBoundary(d'.blocks) by {
      assert Unresolved(d'.blocks, {}) == {};
    }
  }

  /**
   * A bounded-view insert keeps the metadata exact unless it admits a new block that names
   * itself as a predecessor: then the block's own reference is recorded as missing although
   * it resolves from that moment on.
   */
  lemma BoundedKeepsIff(d: Dag, block: Block, verified: bool)
    requires WellKept(d) && TrustedRefusal(d, block, verified).None?
    ensures OnePerConsensus(WithBoundary(d, block).blocks)
    ensures WellKept(WithBoundary(d, block)) <==> block.identity in d.blocks || !SelfReferential(block)
  {
    var id, content := block.identity, block.content;
    var missing := Unresolved(d.blocks, content.preds);
    CommitKeepsOthers(d, id, content);
    UnresolvedShrinks(d.blocks, id, content, content.preds);
    var blocks' := d.blocks[id := content];
    var left := Unresolved(blocks', content.preds);
    forall p | p in missing ensures p in left <==> !Names(p, id) { NewlyResolved(d.blocks, id, content, p); }
    forall p | p in content.preds && Names(p, id) && id !in d.blocks ensures p in missing {
      ResolveWhenUnique(d.blocks, p);
    }
    forall p | p in missing && id in d.blocks ensures !Names(p, id) { ResolveWhenUnique(d.blocks, p); }
    assert left <= missing;
    assert left == missing <==> id in d.blocks || !SelfReferential(block);
    BoundaryEntry(d, block, missing, left);
  }

  /** A first block that names itself is admitted, and its own reference is recorded as missing. */
  lemma SelfNamingBlockBreaksMetadata()
    ensures var id := Identity(seq(32, _ => 1), [], []);
      var block := Block(id, Content([], {id}));
      && TrustedRefusal(EMPTY, block, true).None? && WellKept(EMPTY)
      && !WellKept(WithBoundary(EMPTY, block))
  {
    var id := Identity(seq(32, _ => 1), [], []);
    var block := Block(id, Content([], {id}));
    assert EMPTY.trusted == ExactBoundary(EMPTY.blocks);
    assert Names(id, id) && SelfReferential(block);
    BoundedKeepsIff(EMPTY, block, true);
  }

  lemma BoundaryEntry(d: Dag, block: Block, missing: set<Identity>, left: set<Identity>)
    requires missing == Unresolved(d.blocks, block.content.preds) && left <= missing
    requires left == Unresolved(d.blocks[block.identity := block.content], block.content.preds)
    requires Committed(d, block.identity, block.content).trusted ==
      ExactBoundary(d.blocks[block.identity := block.content]) - {block.identity}
    ensures var d' := WithBoundary(d, block); d'.trusted == ExactBoundary(d'.blocks) <==> left == missing
  {
    var id := block.identity;
    var d' := WithBoundary(d, block);
    var exact := ExactBoundary(d'.blocks);
    assert id in exact <==> left != {};
    assert id in exact ==> exact[id] == left;
    assert id in d'.trusted <==> missing != {};
    assert id in d'.trusted ==> d'.trusted[id] == missing;
    assert d'.trusted - {id} == exact - {id};
    if left == missing {
      forall k ensures k in d'.trusted <==> k in exact { assert k in d'.trusted - {id} <==> k in exact - {id}; }
      forall k | k in exact ensures d'.trusted[k] == exact[k] {
        if k != id { assert k in exact - {id} && (exact - {id})[k] == (d'.trusted - {id})[k]; }
      }
      assert d'.trusted == exact;
    }
  }

  // ---- runs ----

  predicate NoSelfReference(ops: seq<InsertOp>) {
    forall op :: op in ops && op.Bounded? ==> !SelfReferential(op.block)
  }

  lemma {:induction false} ApplyKeeps(d: Dag, op: InsertOp)
    requires WellKept(d) && (op.Bounded? ==> !SelfReferential(op.block))
    ensures WellKept(Apply(d, op))
    ensures Apply(d, op).checkpoint == d.checkpoint
    ensures forall r :: Resolves(d.blocks, r) ==> Resolve(Apply(d, op).blocks, r) == Resolve(d.blocks, r)
  {
    match op
    case Strict(block, verified) =>
      if StrictRefusal(d, block, verified).None? {
        StrictKeeps(d, block, verified);
        forall r | Resolves(d.blocks, r) ensures Resolve(Apply(d, op).blocks, r) == Resolve(d.blocks, r) {
          ResolutionStable(d.blocks, block.identity, block.content, r);
        }
      }
    case Bounded(block, verified) =>
      if TrustedRefusal(d, block, verified).None? {
        BoundedKeepsIff(d, block, verified);
        forall r | Resolves(d.blocks, r) ensures Resolve(Apply(d, op).blocks, r) == Resolve(d.blocks, r) {
          ResolutionStable(d.blocks, block.identity, block.content, r);
        }
      }
  }

  predicate IsClosed(d: Dag) {
    forall id :: id in d.blocks ==> d.checkpoint == Some(id) || Unresolved(d.blocks, d.blocks[id].preds) == {}
  }

  /** Over any run: identities stay unique, resolved references keep their block, and the metadata is exact. */
  lemma {:induction false} RunKeeps(d: Dag, ops: seq<InsertOp>)
    requires WellKept(d) && NoSelfReference(ops)
    ensures WellKept(Run(d, ops)) && Run(d, ops).checkpoint == d.checkpoint
    ensures forall r :: Resolves(d.blocks, r) ==> Resolve(Run(d, ops).blocks, r) == Resolve(d.blocks, r)
  {
    if ops != [] {
      var front, last := ops[..|ops| - 1], ops[|ops| - 1];
      RunKeeps(d, front);
      ApplyKeeps(Run(d, front), last);
    }
  }

  /** Without a checkpoint a well-kept store is closed exactly when it records no boundary. */
  lemma ClosedIffNoBoundary(d: Dag)
    requires WellKept(d) && d.checkpoint == None
    ensures IsClosed(d) <==> d.trusted == map[]
  {
    if IsClosed(d) {
      assert forall id :: id in d.blocks ==> Unresolved(d.blocks, d.blocks[id].preds) == {};
      assert d.trusted.Keys == {};
    } else {
      var id :| id in d.blocks && Unresolved(d.blocks, d.blocks[id].preds) != {};
      assert id in d.trusted;
    }
  }

  // ---- strict runs are acyclic ----

  ghost predicate FullyResolved(blocks: Blocks) {
    forall id :: id in blocks ==> Unresolved(blocks, blocks[id].preds) == {}
  }

  lemma TargetsStable(blocks: Blocks, id: Identity, content: Content, refs: set<Identity>)
    requires OnePerConsensus(blocks) && !HasVariant(blocks, id) && Unresolved(blocks, refs) == {}
    ensures Targets(blocks[id := content], refs) == Targets(blocks, refs)
    ensures Unresolved(blocks[id := content], refs) == {}
  {
    forall p | p in refs ensures Resolves(blocks, p) && Resolve(blocks[id := content], p) == Resolve(blocks, p) {
      assert p !in Unresolved(blocks, refs);
      ResolutionStable(blocks, id, content, p);
    }
  }

  lemma TargetsAreStored(blocks: Blocks, refs: set<Identity>)
    ensures Targets(blocks, refs) <= blocks.Keys
  {
    forall t | t in Targets(blocks, refs) ensures t in blocks {
      var p :| p in refs && Resolves(blocks, p) && Resolve(blocks, p).value == t;
      assert ResolvesTo(blocks, p, t);
    }
  }

  /** Numbers the nodes of a graph so that every edge points at a smaller number. */
  ghost predicate Ranks(rank: map<Identity, nat>, g: Graph<Identity>) {
    rank.Keys == g.Keys && (forall id :: id in rank ==> rank[id] < |g|) && RankedBy(g, rank)
  }

  /** Inserting a new block whose references all resolve adds one node that points at old ones. */
  lemma GrowthExtendsGraph(blocks: Blocks, id: Identity, content: Content)
    requires OnePerConsensus(blocks) && FullyResolved(blocks)
    requires id !in blocks && !HasVariant(blocks, id) && Unresolved(blocks, content.preds) == {}
    ensures FullyResolved(blocks[id := content])
    ensures LaceGraph(blocks[id := content], None) == LaceGraph(blocks, None)[id := Targets(blocks, content.preds)]
    ensures Targets(blocks, content.preds) <= blocks.Keys
  {
    var blocks' := blocks[id := content];
    TargetsStable(blocks, id, content, content.preds);
    TargetsAreStored(blocks, content.preds);
    forall k | k in blocks
      ensures Targets(blocks', blocks'[k].preds) == Targets(blocks, blocks[k].preds)
      ensures Unresolved(blocks', blocks'[k].preds) == {}
    {
      TargetsStable(blocks, id, content, blocks[k].preds);
    }
  }

  /** A new node that points at old ones takes the next number. */
  lemma RankNewNode(rank: map<Identity, nat>, g: Graph<Identity>, id: Identity, targets: set<Identity>)
    requires Ranks(rank, g) && id !in g && targets <= g.Keys
    ensures Ranks(rank[id := |g|], g[id := targets])
  {
    var rank', g' := rank[id := |g|], g[id := targets];
    assert rank'.Keys == g'.Keys && g'.Keys == g.Keys + {id} && |g'| == |g| + 1;
    forall a, b | Edge(g', a, b) ensures a in rank' && b in rank' && rank'[b] < rank'[a] {
      if a != id {
        assert Edge(g, a, b);
      }
    }
  }

  /** An identity always carries the same content. */
  predicate ContentFixed(ops: seq<InsertOp>) {
    forall a, b :: a in ops && b in ops && a.block.identity == b.block.identity ==> a.block.content == b.block.content
  }

  /** Strict inserts into an empty store never create a cycle. */
  lemma {:induction false} StrictRunIsAcyclic(ops: seq<InsertOp>) returns (rank: map<Identity, nat>)
    requires (forall op :: op in ops ==> op.Strict?) && ContentFixed(ops)
    ensures var d := Run(EMPTY, ops);
      && WellKept(d) && FullyResolved(d.blocks) && Ranks(rank, LaceGraph(d.blocks, None))
      && Acyclic(LaceGraph(d.blocks, None))
      && forall id :: id in d.blocks ==> exists op :: op in ops && op.block == Block(id, d.blocks[id])
  {
    if ops == [] {
      rank := map[];
      assert EMPTY.trusted == ExactBoundary(EMPTY.blocks);
    } else {
      var front, op := ops[..|ops| - 1], ops[|ops| - 1];
      assert op in ops && forall o :: o in front ==> o in ops;
      rank := StrictRunIsAcyclic(front);
      var d := Run(EMPTY, front);
      ApplyKeeps(d, op);
      var id, content := op.block.identity, op.block.content;
      if StrictRefusal(d, op.block, op.verified).None? {
        if id in d.blocks {
          var o :| o in front && o.block == Block(id, d.blocks[id]);
          assert d.blocks[id := content] == d.blocks;
        } else {
          GrowthExtendsGraph(d.blocks, id, content);
          RankNewNode(rank, LaceGraph(d.blocks, None), id, Targets(d.blocks, content.preds));
          rank := rank[id := |LaceGraph(d.blocks, None)|];
        }
        assert op.block == Block(id, content);
      }
    }
    RankedIsAcyclic(LaceGraph(Run(EMPTY, ops).blocks, None), rank);
  }
}
