/** What the index of a lace built by strict inserts answers. */
module StrictLace {
  import opened AncestorIndexing
  import opened Approval
  import opened Basics
  import opened BlocklaceStore
  import opened Boundaries
  import opened Dags
  import opened Lace
  import opened Mirror
  import opened Reachability

  /**
   * For any two blocks of such a lace the index says of the first that it observes the second exactly when a
   * traversal from the first finds it, and that it approves the second exactly by Definition 18.
   */
  lemma IndexAnswers(order: seq<Block>, index: AncestorIndex, a: Identity, b: Identity)
    requires StrictOrder(EMPTY, order) && IndexFor(index, Inserted(EMPTY, order).blocks, None)
    requires a in Inserted(EMPTY, order).blocks && b in Inserted(EMPTY, order).blocks
    ensures Askable(index, a, b)
    ensures var blocks := Inserted(EMPTY, order).blocks;
      && (index.closure.Observes(index.pos[a], index.pos[b]) <==> Reaches(LaceGraph(blocks, None), a, b))
      && (index.closure.Observes(index.pos[a], index.pos[b]) <==> b == a || IsAncestor(blocks, None, a, b))
      && (index.Approves(index.pos[a], index.pos[b]) <==> Definition18(blocks, LaceGraph(blocks, None), a, b))
  {
    var blocks := Inserted(EMPTY, order).blocks;
    var rank := StrictOrderIsAcyclic(order);
    AcyclicIsAntisymmetric(LaceGraph(blocks, None));
    StoredIsAskable(index, blocks, None, a, b);
    ObservationIsReachability(index, blocks, None, a, b);
    AncestorsPlusSelfIsObserve(blocks, None, a, b);
    ApprovalIsDefinition18(index, blocks, None, a, b);
  }
}
