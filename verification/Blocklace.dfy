/** The blocklace store of crates/cordial-miners-core/src/blocklace.rs. */
module BlocklaceStore {
  import opened AncestorIndexing
  import opened Approval
  import opened Basics
  import opened Dags
  import opened Lace
  import opened Reachability
  import opened Sorting

  class Blocklace {
    var blocks: Blocks
    var trusted: map<Identity, set<Identity>>
    var checkpoint: Option<Identity>
    var checkpointDepth: Option<nat>
    var orderPrefix: seq<Identity>
    var weightedPrefix: seq<Identity>
    var generation: nat
    var index: Option<AncestorIndex>

    function Dag(): Dag
      reads this
    {
      Dags.Dag(blocks, trusted, checkpoint, checkpointDepth, orderPrefix, weightedPrefix)
    }

    /** A cached index stamped with the current generation describes the current contents. */
    ghost predicate Valid()
      reads this
    {
      && OnePerConsensus(blocks)
      && (index.Some? ==>
          && index.value.generation <= generation
          && (index.value.generation == generation ==> IndexFor(index.value, blocks, checkpoint)))
    }

    constructor ()
      ensures Valid() && Dag() == EMPTY && generation == 0 && index == None
    {
      blocks, trusted, checkpoint, checkpointDepth := map[], map[], None, None;
      orderPrefix, weightedPrefix, generation, index := [], [], 0, None;
    }

    // ---- structural mutation ----

    method CommitValidated(id: Identity, content: Content) returns (r: Result<(), Identity>)
      requires Valid()
      modifies this
      ensures Valid() && index == old(index)
      ensures r.Err? <==> HasVariant(old(blocks), id)
      ensures r.Err? ==>
        r.error in old(blocks) && SameConsensus(r.error, id) && Dag() == old(Dag()) && generation == old(generation)
      ensures r.Ok? ==> Dag() == Committed(old(Dag()), id, content) && generation == old(generation) + 1
    {
      if id !in blocks && exists k :: k in blocks && SameConsensus(k, id) {
        var k :| k in blocks && SameConsensus(k, id);
        return Err(k);
      }
      InsertKeepsUnique(blocks, id, content);
      trusted := trusted - {id};
      blocks := blocks[id := content];
      trusted := Retained(blocks, trusted);
      generation := generation + 1;
      r := Ok(());
    }

    method ForgetBlock(id: Identity) returns (removed: bool)
      requires Valid()
      modifies this
      ensures Valid() && index == old(index) && removed == (id in old(blocks))
      ensures removed ==> Dag() == old(Dag()).(blocks := old(blocks) - {id}, trusted := old(trusted) - {id})
      ensures generation == old(generation) + if removed then 1 else 0
      ensures !removed ==> Dag() == old(Dag())
    {
      removed := id in blocks;
      if removed {
        blocks := blocks - {id};
        trusted := trusted - {id};
        generation := generation + 1;
      }
    }

    method SetCheckpointState(checkpoint: Identity, depth: nat, orderPrefix: seq<Identity>,
                              weightedPrefix: seq<Identity>)
      requires Valid()
      modifies this
      ensures Valid() && index == old(index) && generation == old(generation) + 1
      ensures Dag() == old(Dag()).(checkpoint := Some(checkpoint), checkpointDepth := Some(depth),
                                   orderPrefix := orderPrefix, weightedPrefix := weightedPrefix)
    {
      this.checkpoint := Some(checkpoint);
      this.checkpointDepth := Some(depth);
      this.orderPrefix := orderPrefix;
      this.weightedPrefix := weightedPrefix;
      generation := generation + 1;
    }

    /** The index for the current generation: reused when its stamp matches, rebuilt otherwise. */
    method CurrentIndex() returns (current: AncestorIndex)
      requires Valid()
      modifies this`index
      ensures Valid() && index == Some(current)
      ensures current.generation == generation && IndexFor(current, blocks, checkpoint)
      ensures old(index.Some? && index.value.generation == generation) ==> index == old(index)
    {
      if index.Some? && index.value.generation == generation {
        return index.value;
      }
      current := AncestorIndexing.Build(blocks, checkpoint, generation);
      index := Some(current);
    }

    // ---- insertion ----

    method Insert(block: Block, verified: bool) returns (r: Result<(), InsertError>)
      requires Valid()
      modifies this
      ensures Valid() && index == old(index)
      ensures r.Err? <==> StrictRefusal(old(Dag()), block, verified).Some?
      ensures r.Err? ==> Some(r.error) == StrictRefusal(old(Dag()), block, verified)
      ensures Dag() == Apply(old(Dag()), Strict(block, verified))
      ensures generation == old(generation) + if r.Ok? then 1 else 0
    {
      if !verified { return Err(InvalidSignature); }
      var missing := Unresolved(blocks, block.content.preds);
      if missing != {} { return Err(ClosureViolation); }
      var committed := CommitValidated(block.identity, block.content);
      r := if committed.Ok? then Ok(()) else Err(IdentityConflict);
    }

    method InsertWithTrustedBoundary(block: Block, verified: bool) returns (r: Result<set<Identity>, InsertError>)
      requires Valid()
      modifies this
      ensures Valid() && index == old(index)
      ensures r.Err? <==> TrustedRefusal(old(Dag()), block, verified).Some?
      ensures r.Err? ==> Some(r.error) == TrustedRefusal(old(Dag()), block, verified)
      ensures r.Ok? ==> r.value == Unresolved(old(blocks), block.content.preds)
      ensures Dag() == Apply(old(Dag()), Bounded(block, verified))
      ensures generation == old(generation) + if r.Ok? then 1 else 0
    {
      if !verified { return Err(InvalidSignature); }
      var missing := Unresolved(blocks, block.content.preds);
      var committed := CommitValidated(block.identity, block.content);
      if committed.Err? { return Err(IdentityConflict); }
      if missing != {} {
        trusted := trusted[block.identity := missing];
      }
      r := Ok(missing);
    }

    // ---- traversal ----

    /** The inclusive closure of a reference, breadth first. */
    method Observe(from: Identity) returns (visited: set<Identity>)
      ensures !Resolves(blocks, from) ==> visited == {}
      ensures Resolves(blocks, from) ==> forall x ::
        x in visited <==> Reaches(LaceGraph(blocks, checkpoint), Resolve(blocks, from).value, x)
    {
      visited := {};
      var start := Resolve(blocks, from);
      if start.None? { return; }
      ghost var g := LaceGraph(blocks, checkpoint);
      var root := start.value;
      assert ResolvesTo(blocks, from, root);
      ReachesSelf(g, root);
      var queue := [root];
      visited := {root};
      while queue != []
        invariant Frontier(g, blocks.Keys, visited, queue)
        invariant root in visited && forall x :: x in visited ==> Reaches(g, root, x)
        decreases |blocks.Keys - visited|, |queue|
      {
        var current := queue[0];
        var found := NewTargets(current, visited);
        Expand(g, blocks.Keys, visited, queue, queue[1..] + found, current, found);
        forall x | x in found ensures Reaches(g, root, x) { ReachesThenEdge(g, root, current, x); }
        visited := visited + AsSet(found);
        queue := queue[1..] + found;
      }
      DrainedIsClosed(g, blocks.Keys, visited, root);
    }

    /** The targets of a stored block not visited yet, in some order; none at the checkpoint. */
    method NewTargets(current: Identity, visited: set<Identity>) returns (found: seq<Identity>)
      requires current in blocks
      ensures Distinct(found)
      ensures forall x :: x in found <==> Edge(LaceGraph(blocks, checkpoint), current, x) && x !in visited
    {
      found := [];
      if checkpoint == Some(current) { return; }
      found := FreshTargets(blocks[current].preds, visited);
    }

    method FreshTargets(refs: set<Identity>, visited: set<Identity>) returns (found: seq<Identity>)
      ensures Distinct(found)
      ensures forall x :: x in found <==> x in Targets(blocks, refs) && x !in visited
    {
      found := [];
      var order := Enumerate(refs);
      for i := 0 to |order|
        invariant Distinct(found)
        invariant forall x :: x in found <==>
          x !in visited && exists p :: p in order[..i] && Resolves(blocks, p) && Resolve(blocks, p).value == x
      {
        assert order[..i + 1] == order[..i] + [order[i]];
        var target := Resolve(blocks, order[i]);
        assert order[i] in order[..i + 1];
        if target.Some? && target.value !in visited && target.value !in found {
          found := found + [target.value];
        }
      }
      assert order[..|order|] == order;
    }

    /** The blocks strictly below a reference, depth first. */
    method Ancestors(id: Identity) returns (visited: set<Identity>)
      ensures forall x :: x in visited <==> IsAncestor(blocks, checkpoint, id, x)
    {
      visited := {};
      if checkpoint == Some(id) { return; }
      var start := Resolve(blocks, id);
      if start.None? { return; }
      assert ResolvesTo(blocks, id, start.value);
      var first := FreshTargets(blocks[start.value].preds, {});
      TargetsAreStored(blocks, blocks[start.value].preds);
      assert forall x :: x in first <==> FirstHop(blocks, checkpoint, id, x);
      visited := DrainStack(first);
    }

    /** Follow references from the blocks in `first` until the stack is empty. */
    method DrainStack(first: seq<Identity>) returns (visited: set<Identity>)
      requires forall x :: x in first ==> x in blocks
      ensures forall x :: x in visited <==> ReachedFrom(LaceGraph(blocks, checkpoint), first, x)
    {
      ghost var g, stored := LaceGraph(blocks, checkpoint), blocks.Keys;
      EdgesAreStored(blocks, checkpoint);
      DrainStarts(g, stored, first);
      var stack := first;
      visited := AsSet(first);
      while stack != []
        invariant visited <= stored && Draining(g, stored, first, visited, stack)
        decreases |stored - visited|, |stack|
      {
        var current := stack[|stack| - 1];
        assert current in stack;
        var found := NewTargets(current, visited);
        DrainStep(g, stored, first, visited, stack, found);
        visited := visited + AsSet(found);
        stack := stack[..|stack| - 1] + found;
      }
      DrainedIsReach(g, stored, first, visited);
    }

    method Precedes(a: Identity, b: Identity) returns (below: bool)
      ensures below <==> Resolves(blocks, a) && IsAncestor(blocks, checkpoint, b, Resolve(blocks, a).value)
    {
      var target := Resolve(blocks, a);
      if target.None? { return false; }
      var ancestors := Ancestors(b);
      below := target.value in ancestors;
    }

    // ---- the chain axiom ----

    method EitherPrecedes(a: Identity, b: Identity) returns (comparable: bool)
      requires a in blocks && b in blocks && a != b
      ensures comparable <==> Comparable(LaceGraph(blocks, checkpoint), a, b)
    {
      PrecedesIsReaches(blocks, checkpoint, a, b);
      PrecedesIsReaches(blocks, checkpoint, b, a);
      comparable := Precedes(a, b);
      if !comparable { comparable := Precedes(b, a); }
    }

    /** Any two blocks of `node` are comparable. */
    method SatisfiesChainAxiom(node: Bytes) returns (ok: bool)
      ensures ok <==> !Equivocates(blocks, LaceGraph(blocks, checkpoint), node)
    {
      ghost var g := LaceGraph(blocks, checkpoint);
      var own := Enumerate(set id | id in blocks && id.creator == node);
      for i := 0 to |own|
        invariant AllComparable(g, own, i)
      {
        for j := i + 1 to |own|
          invariant ComparableWith(g, own, i, j)
        {
          assert own[i] in own && own[j] in own;
          var comparable := EitherPrecedes(own[i], own[j]);
          if !comparable {
            assert Fork(blocks, g, own[i], own[j]);
            return false;
          }
        }
      }
      ok := true;
      NoForkAmong(blocks, g, node, own);
    }

    method FindEquivocators() returns (nodes: set<Bytes>)
      ensures forall n :: n in nodes <==> Equivocates(blocks, LaceGraph(blocks, checkpoint), n)
    {
      ghost var g := LaceGraph(blocks, checkpoint);
      nodes := {};
      var all := Enumerate(set id | id in blocks :: id.creator);
      for i := 0 to |all|
        invariant forall n :: n in nodes <==> n in all[..i] && Equivocates(blocks, g, n)
      {
        assert all[..i + 1] == all[..i] + [all[i]];
        var ok := SatisfiesChainAxiom(all[i]);
        if !ok { nodes := nodes + {all[i]}; }
      }
      assert all[..|all|] == all;
    }
  }

  // ---- worklists ----

  /** Everything visited is stored, the queue is visited, and what left the queue has its targets visited. */
  ghost predicate Frontier(g: Graph<Identity>, stored: set<Identity>, visited: set<Identity>, queue: seq<Identity>) {
    && visited <= stored
    && (forall a, b :: Edge(g, a, b) ==> b in stored)
    && (forall x :: x in queue ==> x in visited)
    && (forall x, y :: x in visited && x !in queue && Edge(g, x, y) ==> y in visited)
  }

  lemma Expand(g: Graph<Identity>, stored: set<Identity>, visited: set<Identity>, queue: seq<Identity>,
               queue': seq<Identity>, current: Identity, found: seq<Identity>)
    requires Frontier(g, stored, visited, queue) && current in queue
    requires forall x :: x in found <==> Edge(g, current, x) && x !in visited
    requires forall x :: x in queue' ==> x in queue || x in found
    requires forall x :: x in queue && x != current ==> x in queue'
    requires forall x :: x in found ==> x in queue'
    ensures Frontier(g, stored, visited + AsSet(found), queue')
    ensures found != [] ==> |stored - (visited + AsSet(found))| < |stored - visited|
    ensures found == [] ==> visited + AsSet(found) == visited
  {
    var visited' := visited + AsSet(found);
    if found != [] {
      assert found[0] in found;
      assert stored - visited == (stored - visited') + (visited' - visited);
      assert found[0] in visited' - visited;
    }
  }

  lemma DrainedIsClosed(g: Graph<Identity>, stored: set<Identity>, visited: set<Identity>, root: Identity)
    requires Frontier(g, stored, visited, []) && root in visited
    ensures forall x :: Reaches(g, root, x) ==> x in visited
  {
    forall x | Reaches(g, root, x) ensures x in visited { StaysInside(g, visited, root, x); }
  }

  ghost predicate ReachedFrom(g: Graph<Identity>, roots: seq<Identity>, x: Identity) {
    exists r :: r in roots && Reaches(g, r, x)
  }

  /** The block at `i` is comparable with those after it, up to `j`. */
  ghost predicate ComparableWith(g: Graph<Identity>, own: seq<Identity>, i: int, j: int) {
    0 <= i < |own| && forall y :: i < y < j && y < |own| ==> Comparable(g, own[i], own[y])
  }

  ghost predicate AllComparable(g: Graph<Identity>, own: seq<Identity>, n: int) {
    forall x :: 0 <= x < n && x < |own| ==> ComparableWith(g, own, x, |own|)
  }

  ghost predicate AllReached(g: Graph<Identity>, roots: seq<Identity>, visited: set<Identity>) {
    forall x :: x in visited ==> ReachedFrom(g, roots, x)
  }

  /** Everything visited is reached, and what is not on the stack is done with. */
  ghost predicate Draining(g: Graph<Identity>, stored: set<Identity>, roots: seq<Identity>, visited: set<Identity>,
                           stack: seq<Identity>)
  {
    Frontier(g, stored, visited, stack) && AsSet(roots) <= visited && AllReached(g, roots, visited)
  }

  lemma DrainStarts(g: Graph<Identity>, stored: set<Identity>, roots: seq<Identity>)
    requires AsSet(roots) <= stored && forall a, b :: Edge(g, a, b) ==> b in stored
    ensures Draining(g, stored, roots, AsSet(roots), roots)
  {
    forall x | x in roots ensures ReachedFrom(g, roots, x) { ReachesSelf(g, x); }
  }

  lemma DrainStep(g: Graph<Identity>, stored: set<Identity>, roots: seq<Identity>, visited: set<Identity>,
                  stack: seq<Identity>, found: seq<Identity>)
    requires Draining(g, stored, roots, visited, stack) && stack != []
    requires forall x :: x in found <==> Edge(g, stack[|stack| - 1], x) && x !in visited
    ensures Draining(g, stored, roots, visited + AsSet(found), stack[..|stack| - 1] + found)
    ensures found != [] ==> |stored - (visited + AsSet(found))| < |stored - visited|
    ensures found == [] ==> visited + AsSet(found) == visited
  {
    var current, rest := stack[|stack| - 1], stack[..|stack| - 1];
    assert stack == rest + [current];
    Expand(g, stored, visited, stack, rest + found, current, found);
    TargetsReached(g, roots, visited, current, found);
  }

  lemma TargetsReached(g: Graph<Identity>, roots: seq<Identity>, visited: set<Identity>, current: Identity,
                       found: seq<Identity>)
    requires AllReached(g, roots, visited) && current in visited && forall x :: x in found ==> Edge(g, current, x)
    ensures AllReached(g, roots, visited + AsSet(found))
  {
    var r :| r in roots && Reaches(g, r, current);
    forall x | x in found ensures ReachedFrom(g, roots, x) { ReachesThenEdge(g, r, current, x); }
  }

  lemma DrainedIsReach(g: Graph<Identity>, stored: set<Identity>, roots: seq<Identity>, visited: set<Identity>)
    requires Draining(g, stored, roots, visited, [])
    ensures forall x :: x in visited <==> ReachedFrom(g, roots, x)
  {
    forall x | ReachedFrom(g, roots, x) ensures x in visited {
      var r :| r in roots && Reaches(g, r, x);
      assert r in AsSet(roots);
      DrainedIsClosed(g, stored, visited, r);
    }
  }

  /** What the exclusive traversal takes as its first hop: only the reference itself is compared with the checkpoint. */
  ghost predicate FirstHop(blocks: Blocks, checkpoint: Option<Identity>, id: Identity, t: Identity) {
    checkpoint != Some(id) && Resolves(blocks, id) && ResolvesTo(blocks, id, Resolve(blocks, id).value)
    && t in Targets(blocks, blocks[Resolve(blocks, id).value].preds)
  }

  ghost predicate IsAncestor(blocks: Blocks, checkpoint: Option<Identity>, id: Identity, x: Identity) {
    exists t :: FirstHop(blocks, checkpoint, id, t) && Reaches(LaceGraph(blocks, checkpoint), t, x)
  }

  /** For stored ids the first hop is an edge of the pointed relation. */
  lemma StoredFirstHop(blocks: Blocks, checkpoint: Option<Identity>, id: Identity, t: Identity)
    requires id in blocks
    ensures FirstHop(blocks, checkpoint, id, t) <==> Edge(LaceGraph(blocks, checkpoint), id, t)
  {
    assert ResolvesTo(blocks, id, id);
  }

  /** For distinct stored blocks `precedes` is reachability, whatever the cycles. */
  lemma PrecedesIsReaches(blocks: Blocks, checkpoint: Option<Identity>, a: Identity, b: Identity)
    requires a in blocks && b in blocks && a != b
    ensures Resolve(blocks, a) == Some(a)
    ensures IsAncestor(blocks, checkpoint, b, a) <==> Reaches(LaceGraph(blocks, checkpoint), b, a)
  {
    var g := LaceGraph(blocks, checkpoint);
    assert ResolvesTo(blocks, a, a);
    if IsAncestor(blocks, checkpoint, b, a) {
      var t :| FirstHop(blocks, checkpoint, b, t) && Reaches(g, t, a);
      StoredFirstHop(blocks, checkpoint, b, t);
      EdgeThenReaches(g, b, t, a);
    }
    if Reaches(g, b, a) {
      var t := FirstStep(g, b, a);
      StoredFirstHop(blocks, checkpoint, b, t);
    }
  }

  lemma NoForkAmong(blocks: Blocks, g: Graph<Identity>, node: Bytes, own: seq<Identity>)
    requires forall id :: id in own <==> id in blocks && id.creator == node
    requires AllComparable(g, own, |own|)
    ensures !Equivocates(blocks, g, node)
  {
    forall a, b | a in blocks && b in blocks && a.creator == node && b.creator == node ensures Comparable(g, a, b) {
      var x :| 0 <= x < |own| && own[x] == a;
      var y :| 0 <= y < |own| && own[y] == b;
      if x == y {
        ReachesSelf(g, a);
      } else if x < y {
        assert ComparableWith(g, own, x, |own|) && Comparable(g, own[x], own[y]);
      } else {
        assert ComparableWith(g, own, y, |own|) && Comparable(g, own[y], own[x]);
      }
    }
  }

  /** In an acyclic lace the exclusive and inclusive traversals of a stored block differ by the block itself. */
  lemma AncestorsPlusSelfIsObserve(blocks: Blocks, checkpoint: Option<Identity>, id: Identity, x: Identity)
    requires id in blocks && Acyclic(LaceGraph(blocks, checkpoint))
    ensures Reaches(LaceGraph(blocks, checkpoint), id, x) <==> x == id || IsAncestor(blocks, checkpoint, id, x)
    ensures !IsAncestor(blocks, checkpoint, id, id)
  {
    var g := LaceGraph(blocks, checkpoint);
    ReachesSelf(g, id);
    forall t | FirstHop(blocks, checkpoint, id, t) ensures Edge(g, id, t) { StoredFirstHop(blocks, checkpoint, id, t); }
    if IsAncestor(blocks, checkpoint, id, x) {
      var t :| FirstHop(blocks, checkpoint, id, t) && Reaches(g, t, x);
      EdgeThenReaches(g, id, t, x);
    } else if Reaches(g, id, x) && x != id {
      var t := FirstStep(g, id, x);
      StoredFirstHop(blocks, checkpoint, id, t);
    }
  }

  /**
   * A reference and the block it resolves to have the same ancestors, unless one of the two is
   * the checkpoint and the other is not: an unsigned reference to the checkpoint expands past it.
   */
  lemma ReferenceAncestors(blocks: Blocks, checkpoint: Option<Identity>, id: Identity)
    requires Resolves(blocks, id)
    ensures Resolve(blocks, id).value in blocks
    ensures var k := Resolve(blocks, id).value;
      ((forall x :: IsAncestor(blocks, checkpoint, id, x) <==> IsAncestor(blocks, checkpoint, k, x)) <==>
       id == k || (checkpoint != Some(k) && checkpoint != Some(id)) || Targets(blocks, blocks[k].preds) == {})
  {
    var g, k := LaceGraph(blocks, checkpoint), Resolve(blocks, id).value;
    assert ResolvesTo(blocks, id, k) && ResolvesTo(blocks, k, k);
    var targets := Targets(blocks, blocks[k].preds);
    forall t
      ensures FirstHop(blocks, checkpoint, k, t) <==> checkpoint != Some(k) && t in targets
      ensures FirstHop(blocks, checkpoint, id, t) <==> checkpoint != Some(id) && t in targets {}
    if id != k && (checkpoint == Some(k) || checkpoint == Some(id)) && targets != {} {
      var t :| t in targets;
      ReachesSelf(g, t);
      assert IsAncestor(blocks, checkpoint, id, t) <==> checkpoint == Some(k);
      assert IsAncestor(blocks, checkpoint, k, t) <==> checkpoint == Some(id);
    }
  }

  // ---- a reference to the checkpoint that does not behave like it ----

  const PARENT := Identity(seq(32, _ => 1), [1], [])
  const CHECKPOINT := Identity(seq(32, _ => 2), [1], [9])

  /** A signed checkpoint block on top of one other block. */
  const TWO_BLOCKS: Blocks := map[PARENT := Content([], {}), CHECKPOINT := Content([], {PARENT})]

  /** Its unsigned form has the parent as an ancestor, the checkpoint block itself does not. */
  lemma UnsignedCheckpointExpands()
    ensures Resolve(TWO_BLOCKS, Unsigned(CHECKPOINT)) == Some(CHECKPOINT)
    ensures IsAncestor(TWO_BLOCKS, Some(CHECKPOINT), Unsigned(CHECKPOINT), PARENT)
    ensures !IsAncestor(TWO_BLOCKS, Some(CHECKPOINT), CHECKPOINT, PARENT)
  {
    var reference := Unsigned(CHECKPOINT);
    assert PARENT.hash[0] == 1 && CHECKPOINT.hash[0] == 2;
    assert OnlyMatch(TWO_BLOCKS, reference, CHECKPOINT) && ResolvesTo(TWO_BLOCKS, reference, CHECKPOINT);
    assert ResolvesTo(TWO_BLOCKS, PARENT, PARENT) && PARENT in Targets(TWO_BLOCKS, {PARENT});
    assert FirstHop(TWO_BLOCKS, Some(CHECKPOINT), reference, PARENT);
    ReachesSelf(LaceGraph(TWO_BLOCKS, Some(CHECKPOINT)), PARENT);
  }
}
