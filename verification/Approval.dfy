/** What an ancestor index answers: observation, approval, and the equivocation argument behind them. */
module Approval {
  import opened AncestorIndexing
  import opened Basics
  import opened Lace
  import opened Reachability

  // ---- approval ----

  /** Stored identities have nonnegative positions, so approval may be asked about them. */
  ghost predicate Askable(index: AncestorIndex, a: Identity, b: Identity) {
    && a in index.pos && b in index.pos && 0 <= index.pos[a] && 0 <= index.pos[b]
    && (forall s :: Listed(index.conflicts, index.pos[b], s) ==> 0 <= s)
  }

  lemma StoredIsAskable(index: AncestorIndex, blocks: Blocks, checkpoint: Option<Identity>, a: Identity, b: Identity)
    requires IndexFor(index, blocks, checkpoint) && a in blocks && b in blocks
    ensures Askable(index, a, b)
  {
    var ids :| Indexes(index, blocks, checkpoint, ids);
    var i :| 0 <= i < |ids| && ids[i] == a;
    var j :| 0 <= j < |ids| && ids[j] == b;
  }

  /** Observation read from any index of a lace without proper cycles is reachability. */
  lemma ObservationIsReachability(index: AncestorIndex, blocks: Blocks, checkpoint: Option<Identity>, a: Identity,
                                  b: Identity)
    requires IndexFor(index, blocks, checkpoint) && a in blocks && b in blocks && Askable(index, a, b)
    ensures index.closure.Observes(index.pos[a], index.pos[b]) ==> Reaches(LaceGraph(blocks, checkpoint), a, b)
    ensures Antisymmetric(LaceGraph(blocks, checkpoint)) ==>
      (index.closure.Observes(index.pos[a], index.pos[b]) <==> Reaches(LaceGraph(blocks, checkpoint), a, b))
  {
    var ids :| Indexes(index, blocks, checkpoint, ids);
    var i :| 0 <= i < |ids| && ids[i] == a;
    var j :| 0 <= j < |ids| && ids[j] == b;
  }

  /** Looking up the listed conflicts is enough: they are all the incomparable siblings. */
  lemma SparseApproval(conflicts: map<int, seq<int>>, blocks: Blocks, g: Graph<Identity>, ids: seq<Identity>,
                       o: Identity, t: int)
    requires ConflictTable(conflicts, blocks, g, ids) && 0 <= t < |ids|
    requires forall x :: x in blocks ==> exists s :: 0 <= s < |ids| && ids[s] == x
    requires Reaches(g, o, ids[t]) && ids[t] in blocks
    ensures (forall s :: Listed(conflicts, t, s) ==> 0 <= s < |ids| && !Reaches(g, o, ids[s])) <==>
      Definition18(blocks, g, o, ids[t])
  {
    if forall s :: Listed(conflicts, t, s) ==> 0 <= s < |ids| && !Reaches(g, o, ids[s]) {
      forall x | x in blocks && x.creator == ids[t].creator && !Comparable(g, x, ids[t]) ensures !Reaches(g, o, x) {
        var s :| 0 <= s < |ids| && ids[s] == x;
        assert Listed(conflicts, t, s);
      }
    }
  }

  /** Approval answered from the sparse conflict table is the full pairwise Definition 18. */
  lemma {:induction false} ApprovalIsDefinition18(index: AncestorIndex, blocks: Blocks, checkpoint: Option<Identity>,
                                                  observer: Identity, target: Identity)
    requires IndexFor(index, blocks, checkpoint) && Antisymmetric(LaceGraph(blocks, checkpoint))
    requires observer in blocks && target in blocks && Askable(index, observer, target)
    ensures index.Approves(index.pos[observer], index.pos[target]) <==>
      Definition18(blocks, LaceGraph(blocks, checkpoint), observer, target)
  {
    var ids :| Indexes(index, blocks, checkpoint, ids);
    var o :| 0 <= o < |ids| && ids[o] == observer;
    var t :| 0 <= t < |ids| && ids[t] == target;
    ApprovalAt(index, blocks, LaceGraph(blocks, checkpoint), ids, o, t);
  }

  lemma {:induction false} ApprovalAt(index: AncestorIndex, blocks: Blocks, g: Graph<Identity>, ids: seq<Identity>,
                                      o: int, t: int)
    requires ConflictTable(index.conflicts, blocks, g, ids) && 0 <= o < |ids| && 0 <= t < |ids| && ids[t] in blocks
    requires forall x :: x in blocks ==> exists s :: 0 <= s < |ids| && ids[s] == x
    requires forall j {:trigger index.closure.Observes(o, j)} ::
      0 <= j < |ids| ==> (index.closure.Observes(o, j) <==> Reaches(g, ids[o], ids[j]))
    requires forall s :: Listed(index.conflicts, t, s) ==> 0 <= s
    ensures index.Approves(o, t) <==> Definition18(blocks, g, ids[o], ids[t])
  {
    assert index.closure.Observes(o, t) <==> Reaches(g, ids[o], ids[t]);
    if Reaches(g, ids[o], ids[t]) {
      SparseApproval(index.conflicts, blocks, g, ids, ids[o], t);
      forall s | Listed(index.conflicts, t, s)
        ensures 0 <= s < |ids| && (index.closure.Observes(o, s) <==> Reaches(g, ids[o], ids[s])) {}
    }
  }

  /** Any two indexes of one lace without proper cycles give the same answers. */
  lemma {:induction false} IndexesAgree(index: AncestorIndex, index': AncestorIndex, blocks: Blocks,
                                        checkpoint: Option<Identity>, a: Identity, b: Identity)
    requires IndexFor(index, blocks, checkpoint) && IndexFor(index', blocks, checkpoint)
    requires Antisymmetric(LaceGraph(blocks, checkpoint)) && a in blocks && b in blocks
    requires Askable(index, a, b) && Askable(index', a, b)
    ensures index.closure.Observes(index.pos[a], index.pos[b]) == index'.closure.Observes(index'.pos[a], index'.pos[b])
    ensures index.Approves(index.pos[a], index.pos[b]) == index'.Approves(index'.pos[a], index'.pos[b])
  {
    ObservationIsReachability(index, blocks, checkpoint, a, b);
    ObservationIsReachability(index', blocks, checkpoint, a, b);
    ApprovalIsDefinition18(index, blocks, checkpoint, a, b);
    ApprovalIsDefinition18(index', blocks, checkpoint, a, b);
  }

  // ---- the equivocation argument ----

  /** Some two blocks of `creator` are incomparable. */
  ghost predicate Equivocates(blocks: Blocks, g: Graph<Identity>, creator: Bytes) {
    exists a, b :: Fork(blocks, g, a, b) && a.creator == creator
  }

  /** Blocks of a creator that does not equivocate never approve both sides of a fork. */
  lemma {:induction false} NoDoubleApproval(blocks: Blocks, g: Graph<Identity>, o1: Identity, o2: Identity,
                                            t1: Identity, t2: Identity)
    requires o1 in blocks && o2 in blocks && o1.creator == o2.creator && !Equivocates(blocks, g, o1.creator)
    requires Fork(blocks, g, t1, t2)
    ensures !(Definition18(blocks, g, o1, t1) && Definition18(blocks, g, o2, t2))
  {
    assert Comparable(g, o1, o2) by { assert !Fork(blocks, g, o1, o2); }
    assert Fork(blocks, g, t2, t1);
    if Reaches(g, o1, o2) && Reaches(g, o2, t2) {
      ReachesThenReaches(g, o1, o2, t2);
    }
    if Reaches(g, o2, o1) && Reaches(g, o1, t1) {
      ReachesThenReaches(g, o2, o1, t1);
    }
  }

  /** The creators with a block that approves `target`. */
  ghost function Approvers(blocks: Blocks, g: Graph<Identity>, target: Identity): set<Bytes> {
    set o | o in blocks && Definition18(blocks, g, o, target) :: o.creator
  }

  /** The approving creators of the two sides of a fork share only equivocators. */
  lemma {:induction false} ApproversOfForkIntersectInEquivocators(blocks: Blocks, g: Graph<Identity>, t1: Identity,
                                                                   t2: Identity)
    requires Fork(blocks, g, t1, t2)
    ensures forall c :: c in Approvers(blocks, g, t1) * Approvers(blocks, g, t2) ==> Equivocates(blocks, g, c)
  {
    forall c | c in Approvers(blocks, g, t1) && c in Approvers(blocks, g, t2) ensures Equivocates(blocks, g, c) {
      var o1 :| o1 in blocks && Definition18(blocks, g, o1, t1) && o1.creator == c;
      var o2 :| o2 in blocks && Definition18(blocks, g, o2, t2) && o2.creator == c;
      if !Equivocates(blocks, g, c) {
        NoDoubleApproval(blocks, g, o1, o2, t1, t2);
      }
    }
  }

  /** An index lists a conflict for some block of a creator exactly when that creator equivocates. */
  lemma {:induction false} ConflictsIffEquivocates(index: AncestorIndex, blocks: Blocks, checkpoint: Option<Identity>,
                                                   creator: Bytes)
    requires IndexFor(index, blocks, checkpoint) && Antisymmetric(LaceGraph(blocks, checkpoint))
    ensures Equivocates(blocks, LaceGraph(blocks, checkpoint), creator) <==>
      exists id :: id in blocks && id in index.pos && id.creator == creator && index.pos[id] in index.conflicts
  {
    var ids :| Indexes(index, blocks, checkpoint, ids);
    assert forall x :: x in blocks ==> exists s :: 0 <= s < |ids| && ids[s] == x;
    TableIffEquivocates(index.conflicts, index.pos, blocks, LaceGraph(blocks, checkpoint), ids, creator);
  }

  lemma {:induction false} TableIffEquivocates(conflicts: map<int, seq<int>>, pos: map<Identity, int>, blocks: Blocks,
                                               g: Graph<Identity>, ids: seq<Identity>, creator: Bytes)
    requires ConflictTable(conflicts, blocks, g, ids)
    requires forall x :: x in blocks ==> exists s :: 0 <= s < |ids| && ids[s] == x
    requires forall i :: 0 <= i < |ids| ==> ids[i] in pos && pos[ids[i]] == i
    ensures (exists id :: id in blocks && id in pos && id.creator == creator && pos[id] in conflicts) <==>
      Equivocates(blocks, g, creator)
  {
    if id :| id in blocks && id in pos && id.creator == creator && pos[id] in conflicts {
      var t :| 0 <= t < |ids| && ids[t] == id;
      var s := conflicts[t][0];
      assert Listed(conflicts, t, s);
    }
    if a, b :| Fork(blocks, g, a, b) && a.creator == creator {
      var t :| 0 <= t < |ids| && ids[t] == a;
      var s :| 0 <= s < |ids| && ids[s] == b;
      assert Listed(conflicts, t, s);
    }
  }
}
