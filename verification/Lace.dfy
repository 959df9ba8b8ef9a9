/**
 * Block identities, blocks and the reference resolution of
 * crates/cordial-miners-core/src/blocklace.rs.
 */
module Lace {
  import opened Basics
  import opened Reachability

  datatype Identity = Identity(hash: Hash, creator: Bytes, signature: Bytes)

  datatype Content = Content(payload: Bytes, preds: set<Identity>)

  datatype Block = Block(identity: Identity, content: Content)

  type Blocks = map<Identity, Content>

  /** Two identities name the same consensus block: signatures are proof material only. */
  predicate SameConsensus(a: Identity, b: Identity) {
    a.hash == b.hash && a.creator == b.creator
  }

  function Unsigned(a: Identity): Identity {
    a.(signature := [])
  }

  // ---- resolution ----

  /** `k` is the only stored identity with the hash and creator of `id`. */
  predicate OnlyMatch(blocks: Blocks, id: Identity, k: Identity) {
    k in blocks && SameConsensus(k, id) && forall j :: j in blocks && SameConsensus(j, id) ==> j == k
  }

  ghost predicate ResolvesTo(blocks: Blocks, id: Identity, k: Identity) {
    if id in blocks then k == id else id.signature == [] && OnlyMatch(blocks, id, k)
  }

  /** Exact match first; otherwise an unsigned reference resolves when its match is unique. */
  function Resolve(blocks: Blocks, id: Identity): (r: Option<Identity>)
    ensures forall k :: r == Some(k) <==> ResolvesTo(blocks, id, k)
  {
    if id in blocks then Some(id)
    else if id.signature != [] then None
    else if exists k :: k in blocks && OnlyMatch(blocks, id, k) then
      var k :| k in blocks && OnlyMatch(blocks, id, k);
      Some(k)
    else None
  }

  predicate Resolves(blocks: Blocks, id: Identity) {
    Resolve(blocks, id).Some?
  }

  /** The stored blocks a list of references points at. */
  function Targets(blocks: Blocks, refs: set<Identity>): set<Identity> {
    set p | p in refs && Resolves(blocks, p) :: Resolve(blocks, p).value
  }

  /** The pointed relation, cut at the checkpoint. */
  ghost function LaceGraph(blocks: Blocks, checkpoint: Option<Identity>): Graph<Identity> {
    map id | id in blocks :: if checkpoint == Some(id) then {} else Targets(blocks, blocks[id].preds)
  }

  lemma EdgesAreStored(blocks: Blocks, checkpoint: Option<Identity>)
    ensures forall a, b :: Edge(LaceGraph(blocks, checkpoint), a, b) ==> a in blocks && b in blocks
  {
    forall a, b | Edge(LaceGraph(blocks, checkpoint), a, b) ensures a in blocks && b in blocks {
      var p :| p in blocks[a].preds && Resolves(blocks, p) && Resolve(blocks, p).value == b;
      assert ResolvesTo(blocks, p, b);
    }
  }

  /** No two stored identities share a content hash and creator. */
  ghost predicate OnePerConsensus(blocks: Blocks) {
    forall a, b :: a in blocks && b in blocks && SameConsensus(a, b) ==> a == b
  }

  /** With unique consensus identities a stored block is found by its own reference or its unsigned form. */
  lemma ResolveWhenUnique(blocks: Blocks, id: Identity)
    requires OnePerConsensus(blocks)
    ensures Resolves(blocks, id) <==>
      id in blocks || (id.signature == [] && exists k :: k in blocks && SameConsensus(k, id))
  {
    if id !in blocks && id.signature == [] {
      if k :| k in blocks && SameConsensus(k, id) {
        assert OnlyMatch(blocks, id, k);
        assert ResolvesTo(blocks, id, k);
      }
    }
  }
}
