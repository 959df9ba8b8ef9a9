/** The out-of-order block mirror of crates/cordial-f1r3node-adapter/src/live_ingress.rs. */
module Mirror {
  import opened Basics
  import opened BlocklaceStore
  import opened Dags
  import opened Lace

  datatype Disposition = Applied | Buffered | Duplicate
  datatype MirrorUpdate = MirrorUpdate(disposition: Disposition, released: nat)

  predicate Available(blocks: Blocks, block: Block) {
    Unresolved(blocks, block.content.preds) == {}
  }

  // ---- strict growth ----

  /** Commit the blocks one after the other. */
  function Inserted(d: Dag, order: seq<Block>): Dag {
    if order == [] then d
    else
      var last := order[|order| - 1];
      Committed(Inserted(d, order[..|order| - 1]), last.identity, last.content)
  }

  /** Every block in the order is new and finds its predecessors stored when its turn comes. */
  ghost predicate StrictOrder(d: Dag, order: seq<Block>) {
    order == [] ||
    var front, last := order[..|order| - 1], order[|order| - 1];
    StrictOrder(d, front) && Insertable(Inserted(d, front).blocks, last)
  }

  ghost predicate Insertable(blocks: Blocks, block: Block) {
    block.identity !in blocks && !HasVariant(blocks, block.identity) && Available(blocks, block)
  }

  // ---- the mirror ----

  /** Stored and pending identities are pairwise different as consensus blocks. */
  ghost predicate KeptApart(blocks: Blocks, pending: map<Identity, Block>) {
    && OnePerConsensus(blocks)
    && (forall id :: id in pending ==> pending[id].identity == id)
    && (forall a, b :: a in pending && b in blocks ==> !SameConsensus(a, b))
    && (forall a, b :: a in pending && b in pending && SameConsensus(a, b) ==> a == b)
  }

  ghost predicate NoneReady(blocks: Blocks, pending: map<Identity, Block>) {
    forall id :: id in pending ==> !Available(blocks, pending[id])
  }

  predicate IsKnown(blocks: Blocks, pending: map<Identity, Block>, id: Identity) {
    Resolves(blocks, id) || id in pending
  }

  predicate IsConflict(blocks: Blocks, pending: map<Identity, Block>, id: Identity) {
    HasVariant(blocks, id) || exists k :: k in pending && SameConsensus(k, id)
  }

  predicate Clashes(blocks: Blocks, pending: map<Identity, Block>, id: Identity) {
    !IsKnown(blocks, pending, id) && IsConflict(blocks, pending, id)
  }

  predicate IsNew(blocks: Blocks, pending: map<Identity, Block>, id: Identity) {
    !IsKnown(blocks, pending, id) && !IsConflict(blocks, pending, id)
  }

  /** A block that is neither known nor in conflict can join without clashing. */
  lemma FreshIsApart(blocks: Blocks, pending: map<Identity, Block>, id: Identity)
    requires OnePerConsensus(blocks) && !IsKnown(blocks, pending, id) && !IsConflict(blocks, pending, id)
    ensures id !in blocks && !HasVariant(blocks, id)
    ensures forall k :: k in blocks || k in pending ==> !SameConsensus(k, id)
  {
    assert id in blocks ==> ResolvesTo(blocks, id, id);
  }

  /** What taking in one block does unless the verifier rejects one; the four cases exclude each other. */
  ghost predicate Outcome(blocks: Blocks, pending: map<Identity, Block>, block: Block,
                          r: Result<MirrorUpdate, InsertError>, order: seq<Block>, pending': map<Identity, Block>)
  {
    match r
    case Err(error) =>
      Clashes(blocks, pending, block.identity) && error == IdentityConflict && order == [] && pending' == pending
    case Ok(MirrorUpdate(Duplicate, released)) =>
      IsKnown(blocks, pending, block.identity) && released == 0 && order == [] && pending' == pending
    case Ok(MirrorUpdate(Buffered, released)) =>
      && IsNew(blocks, pending, block.identity) && !Available(blocks, block)
      && released == 0 && order == [] && pending' == pending[block.identity := block]
    case Ok(MirrorUpdate(Applied, released)) =>
      && IsNew(blocks, pending, block.identity) && Available(blocks, block)
      && order != [] && order[0] == block && released == |order| - 1 && Released(pending, order[1..], pending')
  }

  /**
   * What is left when the verifier rejects a block: the new one itself, or a waiting one, which is dropped from
   * the buffer after the blocks released before it were inserted.
   */
  ghost predicate Rejection(accepts: Block -> bool, d: Dag, pending: map<Identity, Block>, block: Block,
                            order: seq<Block>, d': Dag, pending': map<Identity, Block>)
  {
    && IsNew(d.blocks, pending, block.identity) && Available(d.blocks, block)
    && if !accepts(block) then order == [] && d' == d && pending' == pending
       else
         && order != [] && order[0] == block
         && exists lost :: Stopped(accepts, Inserted(d, [block]), pending, order[1..], lost, d', pending')
  }

  /** What taking in one block of a bounded window does, case by case. */
  ghost predicate WindowOutcome(accepts: Block -> bool, d: Dag, pending: map<Identity, Block>, block: Block,
                                r: Result<MirrorUpdate, InsertError>, order: seq<Block>, d': Dag,
                                pending': map<Identity, Block>)
  {
    match r
    case Err(IdentityConflict) =>
      Clashes(d.blocks, pending, block.identity) && order == [] && d' == d && pending' == pending
    case Err(InvalidSignature) =>
      && IsNew(d.blocks, pending, block.identity)
      && if !accepts(block) then order == [] && d' == d && pending' == pending
         else exists lost :: Stopped(accepts, WithBoundary(d, block), pending, order, lost, d', pending')
    case Err(ClosureViolation) => false
    case Ok(MirrorUpdate(Duplicate, released)) =>
      IsKnown(d.blocks, pending, block.identity) && released == 0 && order == [] && d' == d && pending' == pending
    case Ok(MirrorUpdate(Buffered, _)) => false
    case Ok(MirrorUpdate(Applied, released)) =>
      && IsNew(d.blocks, pending, block.identity) && released == |order|
      && GrownBy(WithBoundary(d, block), pending, order, d', pending')
  }

  class LiveBlocklaceMirror {
    const blocklace: Blocklace
    /** The verifier's verdict on a block. */
    const accepts: Block -> bool
    var pending: map<Identity, Block>

    ghost predicate AcceptsAll() {
      forall b :: accepts(b)
    }

    ghost predicate Consistent()
      reads this, blocklace
    {
      blocklace.Valid() && KeptApart(blocklace.blocks, pending)
    }

    ghost predicate Settled()
      reads this, blocklace
    {
      NoneReady(blocklace.blocks, pending)
    }

    /** With a verifier that accepts everything no ready block is ever left waiting between calls. */
    ghost predicate Valid()
      reads this, blocklace
    {
      Consistent() && (AcceptsAll() ==> Settled())
    }

    constructor (accepts: Block -> bool)
      ensures Valid() && fresh(blocklace) && pending == map[] && this.accepts == accepts
      ensures blocklace.Dag() == EMPTY && blocklace.generation == 0
    {
      blocklace := new Blocklace();
      this.accepts := accepts;
      pending := map[];
    }

    /** Take in one block: drop a duplicate, refuse a conflict, buffer it, or insert it and release what waited. */
    method Ingest(block: Block) returns (r: Result<MirrorUpdate, InsertError>, ghost order: seq<Block>)
      requires Valid()
      modifies this, blocklace
      ensures Valid() && blocklace.index == old(blocklace.index)
      ensures blocklace.Dag() == Inserted(old(blocklace.Dag()), order) && StrictOrder(old(blocklace.Dag()), order)
      ensures blocklace.generation == old(blocklace.generation) + |order|
      ensures AllAccepted(accepts, order) && (AcceptsAll() ==> r != Err(InvalidSignature))
      ensures r != Err(InvalidSignature) ==> Outcome(old(blocklace.blocks), old(pending), block, r, order, pending)
      ensures r == Err(InvalidSignature) ==>
        Rejection(accepts, old(blocklace.Dag()), old(pending), block, order, blocklace.Dag(), pending)
      ensures (r.Ok? && r.value.disposition == Applied) || (order == [] && old(Settled())) ==> Settled()
    {
      order := [];
      var id := block.identity;
      if IsKnown(blocklace.blocks, pending, id) {
        return Ok(MirrorUpdate(Duplicate, 0)), [];
      }
      if IsConflict(blocklace.blocks, pending, id) {
        return Err(IdentityConflict), [];
      }
      FreshIsApart(blocklace.blocks, pending, id);
      if !Available(blocklace.blocks, block) {
        pending := pending[id := block];
        return Ok(MirrorUpdate(Buffered, 0)), [];
      }
      r, order := InsertNew(block);
    }

    /** Insert a new block whose predecessors are stored, and release what waited. */
    method InsertNew(block: Block) returns (r: Result<MirrorUpdate, InsertError>, ghost order: seq<Block>)
      requires Consistent() && IsNew(blocklace.blocks, pending, block.identity) && Available(blocklace.blocks, block)
      modifies this, blocklace
      ensures Consistent() && blocklace.index == old(blocklace.index)
      ensures blocklace.Dag() == Inserted(old(blocklace.Dag()), order) && StrictOrder(old(blocklace.Dag()), order)
      ensures blocklace.generation == old(blocklace.generation) + |order| && AllAccepted(accepts, order)
      ensures r != Err(InvalidSignature) ==>
        Settled() && Outcome(old(blocklace.blocks), old(pending), block, r, order, pending)
      ensures r == Err(InvalidSignature) ==>
        Rejection(accepts, old(blocklace.Dag()), old(pending), block, order, blocklace.Dag(), pending)
    {
      ghost var before, waiting := blocklace.Dag(), pending;
      FreshIsApart(blocklace.blocks, pending, block.identity);
      InsertKeepsUnique(blocklace.blocks, block.identity, block.content);
      var inserted := blocklace.Insert(block, accepts(block));
      if inserted.Err? { return Err(inserted.error), []; }
      JustOne(before, block);
      var released; ghost var rest, lost;
      released, rest, lost := ReleasePending();
      order := [block] + rest;
      InsertedConcat(before, [block], rest);
      assert order[1..] == rest;
      if released.Err? {
        assert Stopped(accepts, Inserted(before, [block]), waiting, rest, lost.value, blocklace.Dag(), pending);
        return Err(released.error), order;
      }
      r := Ok(MirrorUpdate(Applied, released.value));
    }

    /**
     * Insert pending blocks whose predecessors are stored, batch by batch, until none is ready or the verifier
     * rejects one, which is `lost`.
     */
    method ReleasePending()
      returns (r: Result<nat, InsertError>, ghost order: seq<Block>, ghost lost: Option<Block>)
      requires Consistent()
      modifies this, blocklace
      ensures Consistent() && blocklace.index == old(blocklace.index)
      ensures blocklace.Dag() == Inserted(old(blocklace.Dag()), order) && StrictOrder(old(blocklace.Dag()), order)
      ensures blocklace.generation == old(blocklace.generation) + |order| && AllAccepted(accepts, order)
      ensures Release(accepts, old(blocklace.Dag()), old(pending), order, lost, blocklace.Dag(), pending)
      ensures r == (if lost.Some? then Err(InvalidSignature) else Ok(|order|)) && (lost == None ==> Settled())
    {
      order, lost := [], None;
      var released := 0;
      ghost var before, before' := blocklace.Dag(), pending;
      while true
        invariant Consistent() && blocklace.index == old(blocklace.index)
        invariant GrownBy(before, before', order, blocklace.Dag(), pending) && AllAccepted(accepts, order)
        invariant blocklace.generation == old(blocklace.generation) + |order| && released == |order|
        decreases |pending|
      {
        var ready := set id | id in pending && Available(blocklace.blocks, pending[id]);
        if ready == {} {
          assert Settled() by {
            forall id | id in pending ensures !Available(blocklace.blocks, pending[id]) { assert id !in ready; }
          }
          return Ok(released), order, None;
        }
        ghost var dag, waiting := blocklace.Dag(), pending;
        var count; ghost var batch;
        count, batch, lost := ReleaseBatch(ready);
        ReleaseConcat(accepts, before, before', order, dag, waiting, batch, lost, blocklace.Dag(), pending);
        order := order + batch;
        if count.Err? { return Err(count.error), order, lost; }
        ReleasedShrinks(waiting, batch, pending);
        released := released + count.value;
      }
    }

    /** Insert one batch of ready blocks, in some order, up to one that the verifier rejects. */
    method ReleaseBatch(ready: set<Identity>)
      returns (r: Result<nat, InsertError>, ghost batch: seq<Block>, ghost lost: Option<Block>)
      requires Consistent() && ready != {} && AllReady(blocklace.blocks, pending, ready)
      modifies this, blocklace
      ensures Consistent() && blocklace.index == old(blocklace.index)
      ensures Release(accepts, old(blocklace.Dag()), old(pending), batch, lost, blocklace.Dag(), pending)
      ensures blocklace.generation == old(blocklace.generation) + |batch| && AllAccepted(accepts, batch)
      ensures r == (if lost.Some? then Err(InvalidSignature) else Ok(|batch|)) && (lost == None ==> batch != [])
    {
      batch, lost := [], None;
      var released := 0;
      ghost var before, before' := blocklace.Dag(), pending;
      var rest := ready;
      while rest != {}
        invariant rest <= ready && (batch == [] ==> rest == ready)
        invariant Consistent() && blocklace.index == old(blocklace.index)
        invariant AllReady(blocklace.blocks, pending, rest)
        invariant GrownBy(before, before', batch, blocklace.Dag(), pending) && AllAccepted(accepts, batch)
        invariant blocklace.generation == old(blocklace.generation) + |batch| && released == |batch|
        decreases |rest|
      {
        var id :| id in rest;
        ghost var dag, waiting := blocklace.Dag(), pending;
        var inserted := ReleaseOne(id);
        TookOne(accepts, before, before', batch, dag, waiting, rest, id);
        if inserted.Err? { return Err(inserted.error), batch, Some(waiting[id]); }
        batch := batch + [waiting[id]];
        rest := rest - {id};
        released := released + 1;
      }
      r := Ok(released);
    }

    /** Move one ready block from the buffer into the store; a rejected one is gone from both. */
    method ReleaseOne(id: Identity) returns (r: Result<(), InsertError>)
      requires Consistent() && id in pending && Available(blocklace.blocks, pending[id])
      modifies this, blocklace
      ensures Consistent() && blocklace.index == old(blocklace.index) && pending == old(pending) - {id}
      ensures (r.Ok? <==> accepts(old(pending)[id])) && (r.Err? ==> r.error == InvalidSignature)
      ensures blocklace.Dag() ==
        if r.Ok? then Committed(old(blocklace.Dag()), id, old(pending)[id].content) else old(blocklace.Dag())
      ensures blocklace.generation == old(blocklace.generation) + if r.Ok? then 1 else 0
    {
      var block := pending[id];
      PendingIsFresh(blocklace.blocks, pending, id);
      InsertKeepsUnique(blocklace.blocks, id, block.content);
      pending := pending - {id};
      r := blocklace.Insert(block, accepts(block));
    }

    /** Take in a block of a bounded window: missing predecessors are recorded, not waited for. */
    method IngestWithTrustedBoundary(block: Block)
      returns (r: Result<MirrorUpdate, InsertError>, ghost order: seq<Block>)
      requires Valid()
      modifies this, blocklace
      ensures Valid() && blocklace.index == old(blocklace.index)
      ensures AllAccepted(accepts, order) && (AcceptsAll() ==> r != Err(InvalidSignature))
      ensures blocklace.generation == old(blocklace.generation) + |order| +
        if old(IsNew(blocklace.blocks, pending, block.identity)) && accepts(block) then 1 else 0
      ensures WindowOutcome(accepts, old(blocklace.Dag()), old(pending), block, r, order, blocklace.Dag(), pending)
      ensures (r.Ok? && r.value.disposition == Applied) ==> Settled()
    {
      order := [];
      var id := block.identity;
      if IsKnown(blocklace.blocks, pending, id) {
        return Ok(MirrorUpdate(Duplicate, 0)), [];
      }
      if IsConflict(blocklace.blocks, pending, id) {
        return Err(IdentityConflict), [];
      }
      FreshIsApart(blocklace.blocks, pending, id);
      InsertKeepsUnique(blocklace.blocks, id, block.content);
      var inserted := blocklace.InsertWithTrustedBoundary(block, accepts(block));
      if inserted.Err? { return Err(inserted.error), []; }
      var released; ghost var lost;
      released, order, lost := ReleasePending();
      r := if released.Ok? then Ok(MirrorUpdate(Applied, released.value)) else Err(released.error);
    }
  }

  // ---- what was released ----

  /** `pending'` is `pending` without the released blocks, each of which was waiting under its own identity. */
  ghost predicate Released(pending: map<Identity, Block>, order: seq<Block>, pending': map<Identity, Block>) {
    && (forall b :: b in order ==> b.identity in pending && pending[b.identity] == b && b.identity !in pending')
    && (forall id :: id in pending' ==> id in pending && pending'[id] == pending[id])
    && (forall id :: id in pending && id !in pending' ==> pending[id] in order)
  }

  /** From one store and buffer to another by releasing the blocks in `order`. */
  ghost predicate GrownBy(d: Dag, p: map<Identity, Block>, order: seq<Block>, d': Dag, p': map<Identity, Block>) {
    d' == Inserted(d, order) && StrictOrder(d, order) && Released(p, order, p')
  }

  ghost predicate AllReady(blocks: Blocks, pending: map<Identity, Block>, ready: set<Identity>) {
    forall id :: id in ready ==> id in pending && Available(blocks, pending[id])
  }

  lemma GrownSnoc(d: Dag, p: map<Identity, Block>, order: seq<Block>, d1: Dag, p1: map<Identity, Block>, block: Block)
    requires GrownBy(d, p, order, d1, p1) && Insertable(d1.blocks, block)
    requires block.identity in p1 && p1[block.identity] == block
    ensures GrownBy(d, p, order + [block], Committed(d1, block.identity, block.content), p1 - {block.identity})
  {
    assert (order + [block])[..|order|] == order;
    ReleasedSnoc(p, order, p1, block);
  }

  ghost predicate AllAccepted(accepts: Block -> bool, order: seq<Block>) {
    forall b :: b in order ==> accepts(b)
  }

  /** The release stopped at a ready block that the verifier rejected: it is in neither store nor buffer. */
  ghost predicate Stopped(accepts: Block -> bool, d: Dag, p: map<Identity, Block>, order: seq<Block>, lost: Block,
                          d': Dag, p': map<Identity, Block>)
  {
    && d' == Inserted(d, order) && StrictOrder(d, order) && Released(p, order + [lost], p')
    && !accepts(lost) && Insertable(d'.blocks, lost)
  }

  /** A release that went through or stopped. */
  ghost predicate Release(accepts: Block -> bool, d: Dag, p: map<Identity, Block>, order: seq<Block>,
                          lost: Option<Block>, d': Dag, p': map<Identity, Block>)
  {
    match lost
    case None => GrownBy(d, p, order, d', p')
    case Some(b) => Stopped(accepts, d, p, order, b, d', p')
  }

  lemma JustOne(d: Dag, block: Block)
    requires Insertable(d.blocks, block)
    ensures StrictOrder(d, [block]) && Inserted(d, [block]) == Committed(d, block.identity, block.content)
  {
    assert [block][..0] == [] && Inserted(d, []) == d;
  }

  lemma StoppedAt(accepts: Block -> bool, d: Dag, p: map<Identity, Block>, order: seq<Block>, d1: Dag,
                  p1: map<Identity, Block>, block: Block)
    requires GrownBy(d, p, order, d1, p1) && Insertable(d1.blocks, block) && !accepts(block)
    requires block.identity in p1 && p1[block.identity] == block
    ensures Stopped(accepts, d, p, order, block, d1, p1 - {block.identity})
  {
    ReleasedSnoc(p, order, p1, block);
  }

  /** Taking one ready block out of the buffer, stored or rejected. */
  lemma TookOne(accepts: Block -> bool, d: Dag, p: map<Identity, Block>, order: seq<Block>, d1: Dag,
                p1: map<Identity, Block>, ready: set<Identity>, id: Identity)
    requires GrownBy(d, p, order, d1, p1) && KeptApart(d1.blocks, p1) && AllReady(d1.blocks, p1, ready) && id in ready
    ensures var block, p2 := p1[id], p1 - {id};
      if accepts(block) then
        && GrownBy(d, p, order + [block], Committed(d1, id, block.content), p2)
        && AllReady(Committed(d1, id, block.content).blocks, p2, ready - {id})
      else Stopped(accepts, d, p, order, block, d1, p2)
  {
    PendingIsFresh(d1.blocks, p1, id);
    if accepts(p1[id]) {
      GrownSnoc(d, p, order, d1, p1, p1[id]);
      OthersStayReady(d1.blocks, p1, ready, id);
    } else {
      StoppedAt(accepts, d, p, order, d1, p1, p1[id]);
    }
  }

  lemma ReleaseConcat(accepts: Block -> bool, d: Dag, p: map<Identity, Block>, order: seq<Block>, d1: Dag,
                      p1: map<Identity, Block>, more: seq<Block>, lost: Option<Block>, d2: Dag,
                      p2: map<Identity, Block>)
    requires GrownBy(d, p, order, d1, p1) && Release(accepts, d1, p1, more, lost, d2, p2)
    ensures Release(accepts, d, p, order + more, lost, d2, p2)
  {
    InsertedConcat(d, order, more);
    match lost
    case None => ReleasedConcat(p, order, p1, more, p2);
    case Some(b) =>
      ReleasedConcat(p, order, p1, more + [b], p2);
      assert order + (more + [b]) == (order + more) + [b];
  }

  lemma OthersStayReady(blocks: Blocks, pending: map<Identity, Block>, ready: set<Identity>, id: Identity)
    requires KeptApart(blocks, pending) && AllReady(blocks, pending, ready) && id in ready
    ensures AllReady(blocks[id := pending[id].content], pending - {id}, ready - {id})
  {
    PendingIsFresh(blocks, pending, id);
    forall k | k in ready - {id} ensures Available(blocks[id := pending[id].content], pending[k]) {
      TargetsStable(blocks, id, pending[id].content, pending[k].content.preds);
    }
  }

  lemma ReleasedSnoc(p0: map<Identity, Block>, order: seq<Block>, p1: map<Identity, Block>, block: Block)
    requires Released(p0, order, p1) && block.identity in p1 && p1[block.identity] == block
    ensures Released(p0, order + [block], p1 - {block.identity})
  {}

  lemma ReleasedConcat(p0: map<Identity, Block>, order: seq<Block>, p1: map<Identity, Block>, more: seq<Block>,
                       p2: map<Identity, Block>)
    requires Released(p0, order, p1) && Released(p1, more, p2)
    ensures Released(p0, order + more, p2)
  {}

  lemma ReleasedShrinks(p: map<Identity, Block>, order: seq<Block>, p': map<Identity, Block>)
    requires Released(p, order, p') && order != []
    ensures |p'| < |p|
  {
    var b := order[0];
    assert b in order;
    assert p'.Keys <= p.Keys - {b.identity};
    SubsetSize(p'.Keys, p.Keys - {b.identity});
  }

  lemma {:induction false} InsertedConcat(d: Dag, order: seq<Block>, more: seq<Block>)
    requires StrictOrder(d, order) && StrictOrder(Inserted(d, order), more)
    ensures Inserted(d, order + more) == Inserted(Inserted(d, order), more)
    ensures StrictOrder(d, order + more)
  {
    if more == [] {
      assert order + more == order;
    } else {
      var front, last := more[..|more| - 1], more[|more| - 1];
      InsertedConcat(d, order, front);
      LastInserted(Inserted(d, order), more);
      InsertedSnoc(d, order + front, last);
      ConcatSnoc(order, more);
    }
  }

  lemma ConcatSnoc<T>(s: seq<T>, t: seq<T>)
    requires t != []
    ensures s + t == (s + t[..|t| - 1]) + [t[|t| - 1]]
  {}

  lemma LastInserted(d: Dag, order: seq<Block>)
    requires StrictOrder(d, order) && order != []
    ensures var front, last := order[..|order| - 1], order[|order| - 1];
      && StrictOrder(d, front) && Insertable(Inserted(d, front).blocks, last)
      && Inserted(d, order) == Committed(Inserted(d, front), last.identity, last.content)
  {}

  lemma InsertedSnoc(d: Dag, order: seq<Block>, block: Block)
    requires StrictOrder(d, order) && Insertable(Inserted(d, order).blocks, block)
    ensures Inserted(d, order + [block]) == Committed(Inserted(d, order), block.identity, block.content)
    ensures StrictOrder(d, order + [block])
  {
    assert (order + [block])[..|order|] == order;
  }

  /** A pending block can be inserted without a conflict. */
  lemma PendingIsFresh(blocks: Blocks, pending: map<Identity, Block>, id: Identity)
    requires KeptApart(blocks, pending) && id in pending
    ensures pending[id].identity == id && id !in blocks && !HasVariant(blocks, id)
  {}
}
