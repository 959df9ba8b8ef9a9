/** Boundary metadata and strict growth: what the mirror keeps of the store it grows. */
module Boundaries {
  import opened Basics
  import opened Dags
  import opened Lace
  import opened Mirror
  import opened Reachability

  // ---- boundary metadata covers what is missing ----

  /** Every unresolved predecessor is recorded; some recorded ones may already resolve. */
  ghost predicate Covers(d: Dag) {
    forall id, p :: id in d.blocks && p in d.blocks[id].preds && !Resolves(d.blocks, p) ==>
      id in d.trusted && p in d.trusted[id]
  }

  lemma NoBoundaryIsFullyResolved(d: Dag)
    requires Covers(d) && d.trusted == map[]
    ensures FullyResolved(d.blocks)
  {
    forall id | id in d.blocks ensures Unresolved(d.blocks, d.blocks[id].preds) == {} {}
  }

  lemma {:induction false} CommitCovers(d: Dag, id: Identity, content: Content)
    requires OnePerConsensus(d.blocks) && Covers(d) && !HasVariant(d.blocks, id)
    ensures var d' := Committed(d, id, content); forall k, p ::
      k in d'.blocks && k != id && p in d'.blocks[k].preds && !Resolves(d'.blocks, p) ==>
        k in d'.trusted && p in d'.trusted[k]
  {
    var d' := Committed(d, id, content);
    forall k, p | k in d'.blocks && k != id && p in d'.blocks[k].preds && !Resolves(d'.blocks, p)
      ensures k in d'.trusted && p in d'.trusted[k]
    {
      if Resolves(d.blocks, p) { ResolutionStable(d.blocks, id, content, p); }
      assert p in Unresolved(d'.blocks, d.trusted[k]);
    }
  }

  lemma {:induction false} StrictCovers(d: Dag, block: Block)
    requires OnePerConsensus(d.blocks) && Covers(d) && Insertable(d.blocks, block)
    ensures Covers(Committed(d, block.identity, block.content))
    ensures OnePerConsensus(Committed(d, block.identity, block.content).blocks)
  {
    CommitCovers(d, block.identity, block.content);
    TargetsStable(d.blocks, block.identity, block.content, block.content.preds);
    InsertKeepsUnique(d.blocks, block.identity, block.content);
    var d' := Committed(d, block.identity, block.content);
    forall p | p in block.content.preds ensures Resolves(d'.blocks, p) {
      assert p !in Unresolved(d'.blocks, block.content.preds);
    }
  }

  lemma {:induction false} BoundaryCovers(d: Dag, block: Block)
    requires OnePerConsensus(d.blocks) && Covers(d) && block.identity !in d.blocks
    requires !HasVariant(d.blocks, block.identity)
    ensures Covers(WithBoundary(d, block)) && OnePerConsensus(WithBoundary(d, block).blocks)
  {
    CommitCovers(d, block.identity, block.content);
    InsertKeepsUnique(d.blocks, block.identity, block.content);
    var d' := WithBoundary(d, block);
    forall p | p in block.content.preds && !Resolves(d'.blocks, p)
      ensures p in Unresolved(d.blocks, block.content.preds)
    {
      if Resolves(d.blocks, p) { ResolutionStable(d.blocks, block.identity, block.content, p); }
    }
  }

  /** Strict growth keeps the metadata covering and adds no boundary. */
  lemma {:induction false} GrowthCovers(d: Dag, order: seq<Block>)
    requires OnePerConsensus(d.blocks) && Covers(d) && StrictOrder(d, order)
    ensures var d' := Inserted(d, order);
      OnePerConsensus(d'.blocks) && Covers(d') && d'.checkpoint == d.checkpoint &&
        (d.trusted == map[] ==> d'.trusted == map[])
  {
    if order != [] {
      var front, last := order[..|order| - 1], order[|order| - 1];
      GrowthCovers(d, front);
      StrictCovers(Inserted(d, front), last);
      if d.trusted == map[] {
        assert Inserted(d, order).trusted.Keys == {};
      }
    }
  }

  /** Strict growth never touches a stored block. */
  lemma {:induction false} GrowthKeepsBlocks(d: Dag, order: seq<Block>)
    requires StrictOrder(d, order)
    ensures forall id ::
      id in d.blocks ==> id in Inserted(d, order).blocks && Inserted(d, order).blocks[id] == d.blocks[id]
  {
    if order != [] {
      GrowthKeepsBlocks(d, order[..|order| - 1]);
    }
  }

  /**
   * Whatever the mirror inserts strictly into an empty lace is closed and acyclic: no identity is ever inserted twice.
   */
  lemma {:induction false} StrictOrderIsAcyclic(order: seq<Block>) returns (rank: map<Identity, nat>)
    requires StrictOrder(EMPTY, order)
    ensures var d := Inserted(EMPTY, order);
      && OnePerConsensus(d.blocks) && FullyResolved(d.blocks)
      && Ranks(rank, LaceGraph(d.blocks, None)) && Acyclic(LaceGraph(d.blocks, None))
  {
    if order == [] {
      rank := map[];
    } else {
      var front, last := order[..|order| - 1], order[|order| - 1];
      rank := StrictOrderIsAcyclic(front);
      var blocks := Inserted(EMPTY, front).blocks;
      GrowthExtendsGraph(blocks, last.identity, last.content);
      InsertKeepsUnique(blocks, last.identity, last.content);
      RankNewNode(rank, LaceGraph(blocks, None), last.identity, Targets(blocks, last.content.preds));
      rank := rank[last.identity := |LaceGraph(blocks, None)|];
    }
    RankedIsAcyclic(LaceGraph(Inserted(EMPTY, order).blocks, None), rank);
  }
}
