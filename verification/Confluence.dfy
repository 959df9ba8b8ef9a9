/** Every arrival order leaves the mirror with the same store and the same buffer. */
module Confluence {
  import opened Dags
  import opened Lace
  import opened Mirror

  /** Blocks that share a content hash and creator are the same block; repeats are allowed. */
  ghost predicate Consistent(arrivals: seq<Block>) {
    forall a, b :: a in arrivals && b in arrivals && SameConsensus(a.identity, b.identity) ==> a == b
  }

  ghost function Universe(arrivals: seq<Block>): Blocks
    requires Consistent(arrivals)
  {
    map b | b in arrivals :: b.identity := b.content
  }

  /** Every predecessor of `id` names a member of `s`. */
  ghost predicate Supported(u: Blocks, s: set<Identity>, id: Identity)
    requires id in u
  {
    forall p :: p in u[id].preds ==> exists k :: k in s && Names(p, k)
  }

  ghost predicate ClosedIn(u: Blocks, s: set<Identity>) {
    forall id :: id in u && Supported(u, s, id) ==> id in s
  }

  /** The least set of blocks closed under "all predecessors resolve". */
  ghost predicate LeastClosed(u: Blocks, s: set<Identity>) {
    s <= u.Keys && ClosedIn(u, s) && forall c: set<Identity> :: ClosedIn(u, c) ==> s <= c
  }

  lemma LeastClosedUnique(u: Blocks, s: set<Identity>, t: set<Identity>)
    requires LeastClosed(u, s) && LeastClosed(u, t)
    ensures s == t
  {}

  /** Stored and pending blocks come from the universe. */
  ghost predicate Within(u: Blocks, blocks: Blocks, pending: map<Identity, Block>) {
    && (forall id :: id in blocks ==> id in u && u[id] == blocks[id])
    && (forall id :: id in pending ==> id in u && pending[id] == Block(id, u[id]))
  }

  ghost predicate Has(blocks: Blocks, pending: map<Identity, Block>, id: Identity) {
    id in blocks || id in pending
  }

  lemma ResolvedIsNamed(blocks: Blocks, p: Identity)
    requires Resolves(blocks, p)
    ensures exists k :: k in blocks && Names(p, k)
  {
    assert ResolvesTo(blocks, p, Resolve(blocks, p).value);
  }

  lemma NamedIsResolved(blocks: Blocks, p: Identity, k: Identity)
    requires OnePerConsensus(blocks) && k in blocks && Names(p, k)
    ensures Resolves(blocks, p)
  {
    ResolveWhenUnique(blocks, p);
  }

  /** Strict growth stays inside every closed set. */
  lemma {:induction false} GrowthStaysInside(u: Blocks, c: set<Identity>, d: Dag, order: seq<Block>)
    requires ClosedIn(u, c) && d.blocks.Keys <= c && StrictOrder(d, order)
    requires forall b :: b in order ==> b.identity in u && u[b.identity] == b.content
    ensures Inserted(d, order).blocks.Keys <= c
  {
    if order != [] {
      var front, last := order[..|order| - 1], order[|order| - 1];
      assert last in order;
      GrowthStaysInside(u, c, d, front);
      var blocks := Inserted(d, front).blocks;
      forall p | p in last.content.preds ensures exists k :: k in c && Names(p, k) {
        assert p !in Unresolved(blocks, last.content.preds);
        ResolvedIsNamed(blocks, p);
      }
      assert Supported(u, c, last.identity);
    }
  }

  /** Strict growth adds exactly the inserted blocks. */
  lemma {:induction false} GrowthContents(d: Dag, order: seq<Block>)
    ensures forall id ::
      id in Inserted(d, order).blocks <==> id in d.blocks || exists b :: b in order && b.identity == id
    ensures forall id :: id in Inserted(d, order).blocks ==>
      (id in d.blocks && Inserted(d, order).blocks[id] == d.blocks[id]) ||
        Block(id, Inserted(d, order).blocks[id]) in order
  {
    if order != [] {
      var front, last := order[..|order| - 1], order[|order| - 1];
      GrowthContents(d, front);
      assert order == front + [last];
      assert last in order && forall b :: b in front ==> b in order;
    }
  }

  /** A buffer with nothing ready makes the store closed. */
  lemma NoneReadyIsClosed(u: Blocks, blocks: Blocks, pending: map<Identity, Block>)
    requires OnePerConsensus(blocks) && Within(u, blocks, pending) && NoneReady(blocks, pending)
    requires forall id :: id in u ==> Has(blocks, pending, id)
    ensures ClosedIn(u, blocks.Keys)
  {
    forall id | id in pending ensures !Supported(u, blocks.Keys, id) {
      assert !Available(blocks, pending[id]);
      var p :| p in Unresolved(blocks, pending[id].content.preds);
      forall k | k in blocks ensures !Names(p, k) {
        if Names(p, k) { NamedIsResolved(blocks, p, k); }
      }
    }
    forall id | id in u && Supported(u, blocks.Keys, id) ensures id in blocks { assert Has(blocks, pending, id); }
  }

  /** A block of the universe is known to the mirror exactly when it is held, and never in conflict. */
  lemma NeverConflicts(u: Blocks, blocks: Blocks, pending: map<Identity, Block>, id: Identity)
    requires OnePerConsensus(u) && Within(u, blocks, pending) && id in u
    ensures IsKnown(blocks, pending, id) <==> Has(blocks, pending, id)
    ensures !IsKnown(blocks, pending, id) ==> !IsConflict(blocks, pending, id)
  {
    if Resolves(blocks, id) {
      ResolvedIsNamed(blocks, id);
      var k :| k in blocks && Names(id, k);
      assert k == id;
    }
    if id in blocks { assert ResolvesTo(blocks, id, id); }
  }

  /** What holds between arrivals: nothing from outside, and nothing that some closed set lacks. */
  ghost predicate Grounded(u: Blocks, blocks: Blocks, pending: map<Identity, Block>) {
    Within(u, blocks, pending) && forall c: set<Identity> :: ClosedIn(u, c) ==> blocks.Keys <= c
  }

  /** The verifier accepts every block of the universe. */
  ghost predicate Trustworthy(u: Blocks, accepts: Block -> bool) {
    forall id :: id in u ==> accepts(Block(id, u[id]))
  }

  /** Then it rejects neither a new block nor a waiting one. */
  lemma NeverRejects(u: Blocks, accepts: Block -> bool, d: Dag, p: map<Identity, Block>, block: Block,
                     order: seq<Block>, d': Dag, p': map<Identity, Block>)
    requires Trustworthy(u, accepts) && Within(u, d.blocks, p)
    requires block.identity in u && u[block.identity] == block.content
    ensures !Rejection(accepts, d, p, block, order, d', p')
  {
    assert block == Block(block.identity, u[block.identity]);
    if order != [] {
      forall lost | Released(p, order[1..] + [lost], p') ensures accepts(lost) {
        assert lost in order[1..] + [lost];
        assert lost == Block(lost.identity, u[lost.identity]);
      }
    }
  }

  /** Nothing that was held is lost. */
  ghost predicate AllKept(blocks: Blocks, pending: map<Identity, Block>, blocks': Blocks,
                          pending': map<Identity, Block>)
  {
    forall id :: Has(blocks, pending, id) ==> Has(blocks', pending', id)
  }

  /** The first `n` arrivals are stored or waiting. */
  ghost predicate Held(arrivals: seq<Block>, n: int, blocks: Blocks, pending: map<Identity, Block>) {
    forall j :: 0 <= j < n && j < |arrivals| ==> Has(blocks, pending, arrivals[j].identity)
  }

  lemma HeldMore(arrivals: seq<Block>, n: int, blocks: Blocks, pending: map<Identity, Block>, blocks': Blocks,
                 pending': map<Identity, Block>)
    requires Held(arrivals, n, blocks, pending) && AllKept(blocks, pending, blocks', pending')
    requires 0 <= n < |arrivals| && Has(blocks', pending', arrivals[n].identity)
    ensures Held(arrivals, n + 1, blocks', pending')
  {}

  /** Feed the arrivals one after the other. */
  method FeedAll(mirror: LiveBlocklaceMirror, arrivals: seq<Block>, ghost u: Blocks)
    requires mirror.Valid() && mirror.Settled() && Trustworthy(u, mirror.accepts)
    requires OnePerConsensus(u) && Grounded(u, mirror.blocklace.blocks, mirror.pending)
    requires forall b :: b in arrivals ==> b.identity in u && u[b.identity] == b.content
    modifies mirror, mirror.blocklace
    ensures mirror.Valid() && mirror.Settled() && Grounded(u, mirror.blocklace.blocks, mirror.pending)
    ensures Held(arrivals, |arrivals|, mirror.blocklace.blocks, mirror.pending)
  {
    for i := 0 to |arrivals|
      invariant mirror.Valid() && mirror.Settled() && Grounded(u, mirror.blocklace.blocks, mirror.pending)
      invariant Held(arrivals, i, mirror.blocklace.blocks, mirror.pending)
    {
      ghost var blocks, pending := mirror.blocklace.blocks, mirror.pending;
      Feed(mirror, arrivals[i], u);
      HeldMore(arrivals, i, blocks, pending, mirror.blocklace.blocks, mirror.pending);
    }
  }

  lemma ArrivalsTrusted(arrivals: seq<Block>, accepts: Block -> bool)
    requires Consistent(arrivals) && forall b :: b in arrivals ==> accepts(b)
    ensures Trustworthy(Universe(arrivals), accepts)
  {
    var u := Universe(arrivals);
    forall id | id in u ensures accepts(Block(id, u[id])) {
      var b :| b in arrivals && b.identity == id;
      assert b == Block(id, u[id]);
    }
  }

  method Feed(mirror: LiveBlocklaceMirror, block: Block, ghost u: Blocks)
    requires mirror.Valid() && mirror.Settled() && Trustworthy(u, mirror.accepts)
    requires OnePerConsensus(u) && Grounded(u, mirror.blocklace.blocks, mirror.pending)
    requires block.identity in u && u[block.identity] == block.content
    modifies mirror, mirror.blocklace
    ensures mirror.Valid() && mirror.Settled() && Grounded(u, mirror.blocklace.blocks, mirror.pending)
    ensures Has(mirror.blocklace.blocks, mirror.pending, block.identity)
    ensures AllKept(old(mirror.blocklace.blocks), old(mirror.pending), mirror.blocklace.blocks, mirror.pending)
  {
    ghost var d, p := mirror.blocklace.Dag(), mirror.pending;
    NeverConflicts(u, d.blocks, p, block.identity);
    var r; ghost var order;
    r, order := mirror.Ingest(block);
    NeverRejects(u, mirror.accepts, d, p, block, order, mirror.blocklace.Dag(), mirror.pending);
    StepStaysWithin(u, d, p, block, order, mirror.blocklace.Dag(), mirror.pending);
    forall c: set<Identity> | ClosedIn(u, c) ensures mirror.blocklace.blocks.Keys <= c {
      GrowthStaysInside(u, c, d, order);
    }
  }

  /** Feed the arrivals, all of which the verifier accepts, to an empty mirror, in the given order. */
  method IngestAll(mirror: LiveBlocklaceMirror, arrivals: seq<Block>)
    requires Consistent(arrivals) && forall b :: b in arrivals ==> mirror.accepts(b)
    requires mirror.Valid() && mirror.blocklace.Dag() == EMPTY && mirror.pending == map[]
    modifies mirror, mirror.blocklace
    ensures var u := Universe(arrivals);
      && mirror.Valid() && Within(u, mirror.blocklace.blocks, mirror.pending)
      && LeastClosed(u, mirror.blocklace.blocks.Keys)
      && mirror.pending.Keys == u.Keys - mirror.blocklace.blocks.Keys
  {
    ghost var u := Universe(arrivals);
    UniverseUnique(arrivals);
    ArrivalsTrusted(arrivals, mirror.accepts);
    FeedAll(mirror, arrivals, u);
    Settled(arrivals, mirror.blocklace.blocks, mirror.pending);
  }

  lemma {:induction false} Settled(arrivals: seq<Block>, blocks: Blocks, pending: map<Identity, Block>)
    requires Consistent(arrivals) && KeptApart(blocks, pending) && NoneReady(blocks, pending)
    requires Grounded(Universe(arrivals), blocks, pending)
    requires Held(arrivals, |arrivals|, blocks, pending)
    ensures LeastClosed(Universe(arrivals), blocks.Keys)
    ensures pending.Keys == Universe(arrivals).Keys - blocks.Keys
  {
    var u := Universe(arrivals);
    forall id | id in u ensures Has(blocks, pending, id) {
      var b :| b in arrivals && b.identity == id;
      var j :| 0 <= j < |arrivals| && arrivals[j] == b;
    }
    NoneReadyIsClosed(u, blocks, pending);
    forall id | id in pending ensures id !in blocks { assert SameConsensus(id, id); }
  }

  lemma UniverseUnique(arrivals: seq<Block>)
    requires Consistent(arrivals)
    ensures OnePerConsensus(Universe(arrivals))
  {
    var u := Universe(arrivals);
    forall a, b | a in u && b in u && SameConsensus(a, b) ensures a == b {
      var x :| x in arrivals && x.identity == a;
      var y :| y in arrivals && y.identity == b;
    }
  }

  /** One ingest keeps what the mirror holds within the universe and loses nothing. */
  lemma {:induction false} StepStaysWithin(u: Blocks, d: Dag, p: map<Identity, Block>, block: Block,
                                           order: seq<Block>, d': Dag, p': map<Identity, Block>)
    requires Within(u, d.blocks, p) && block.identity in u && u[block.identity] == block.content
    requires d' == Inserted(d, order)
    requires (order == [] && (p' == p || p' == p[block.identity := block]))
      || (order != [] && order[0] == block && Released(p, order[1..], p'))
    ensures Within(u, d'.blocks, p')
    ensures forall b :: b in order ==> b.identity in u && u[b.identity] == b.content
    ensures forall id :: Has(d.blocks, p, id) ==> Has(d'.blocks, p', id)
    ensures order != [] || p' != p ==> Has(d'.blocks, p', block.identity)
  {
    forall b | b in order ensures b.identity in u && u[b.identity] == b.content {
      if b != block {
        var i :| 0 <= i < |order| && order[i] == b;
        assert order[1..][i - 1] == b;
        assert b in order[1..];
      }
    }
    GrowthContents(d, order);
    if order != [] {
      assert order[0] in order;
      forall id | id in p && id !in p' ensures id in d'.blocks {
        assert p[id] in order[1..];
        assert p[id] in order;
      }
    }
  }

  /** The final store and buffer depend only on which blocks arrived, not on their order. */
  lemma SameUniverse(a: seq<Block>, b: seq<Block>)
    requires Consistent(a) && Consistent(b) && forall x :: x in a <==> x in b
    ensures Universe(a) == Universe(b)
  {
    assert Universe(a).Keys == Universe(b).Keys;
  }
}
