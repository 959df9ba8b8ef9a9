/** Depths (rounds) and waves of crates/cordial-miners-core/src/consensus/round.rs and wave.rs. */
module Rounds {
  import opened Basics
  import opened Dags
  import opened Lace

  function Max(s: set<nat>): (m: nat)
    requires s != {}
    ensures m in s && forall x :: x in s ==> x <= m
  {
    MaxExists(s);
    var m :| m in s && forall x :: x in s ==> x <= m;
    m
  }

  ghost predicate IsMax(s: set<nat>, m: nat) {
    m in s && forall x :: x in s ==> x <= m
  }

  lemma {:induction false} MaxExists(s: set<nat>)
    requires s != {}
    ensures exists m :: IsMax(s, m)
  {
    var x :| x in s;
    var rest := s - {x};
    if rest == {} {
      assert s == {x} && IsMax(s, x);
    } else {
      MaxExists(rest);
      var m :| IsMax(rest, m);
      MaxOfOneMore(rest, m, x);
      assert s == rest + {x};
    }
  }

  lemma MaxOfOneMore(s: set<nat>, m: nat, x: nat)
    requires IsMax(s, m)
    ensures IsMax(s + {x}, if x > m then x else m)
  {}

  /** One more than the deepest of a nonempty set of known depths. */
  function OneMore(below: set<Option<nat>>): nat
    requires below != {} && None !in below
  {
    var depths := set x | x in below && x.Some? :: x.value;
    assert depths != {} by { var x :| x in below; assert x.value in depths; }
    1 + Max(depths)
  }

  /** One step of the recursion, given the depths of the predecessors. */
  function DepthStep(d: Dag, k: Identity, below: set<Option<nat>>): Option<nat>
    requires k in d.blocks
  {
    if d.checkpoint == Some(k) then Some(if d.checkpointDepth.Some? then d.checkpointDepth.value else 0)
    else if d.blocks[k].preds == {} then Some(0)
    else if None in below || below == {} then None
    else Some(OneMore(below))
  }

  /** The longest path back to an initial block, following at most `fuel` references. */
  function DepthWithin(d: Dag, id: Identity, fuel: nat): Option<nat>
    decreases fuel, 1
  {
    if fuel == 0 then None
    else match Resolve(d.blocks, id)
      case None => None
      case Some(k) =>
        assert ResolvesTo(d.blocks, id, k);
        DepthStep(d, k, Below(d, d.blocks[k].preds, fuel - 1))
  }

  function Below(d: Dag, refs: set<Identity>, fuel: nat): set<Option<nat>>
    decreases fuel, 2
  {
    set p | p in refs :: DepthWithin(d, p, fuel)
  }

  /** No chain of references is longer than the store, so the number of blocks is fuel enough. */
  function Depth(d: Dag, id: Identity): Option<nat> {
    DepthWithin(d, id, |d.blocks|)
  }

  lemma ResolvedDepth(d: Dag, id: Identity, fuel: nat)
    requires Resolves(d.blocks, id)
    ensures var k := Resolve(d.blocks, id).value; k in d.blocks && DepthWithin(d, id, fuel) == DepthWithin(d, k, fuel)
  {
    var k := Resolve(d.blocks, id).value;
    assert ResolvesTo(d.blocks, id, k);
    assert ResolvesTo(d.blocks, k, k);
  }

  /** Unfolding one reference. */
  lemma Unfold(d: Dag, k: Identity, fuel: nat)
    requires k in d.blocks
    ensures DepthWithin(d, k, fuel + 1) == DepthStep(d, k, Below(d, d.blocks[k].preds, fuel))
  {
    assert ResolvesTo(d.blocks, k, k);
  }

  lemma SameBelow(d: Dag, d': Dag, refs: set<Identity>, fuel: nat, fuel': nat)
    requires forall p :: p in refs ==> DepthWithin(d, p, fuel) == DepthWithin(d', p, fuel')
    ensures Below(d, refs, fuel) == Below(d', refs, fuel')
  {
    forall x | x in Below(d, refs, fuel) ensures x in Below(d', refs, fuel') {
      var p :| p in refs && DepthWithin(d, p, fuel) == x;
      assert DepthWithin(d', p, fuel') == x;
    }
    forall x | x in Below(d', refs, fuel') ensures x in Below(d, refs, fuel) {
      var p :| p in refs && DepthWithin(d', p, fuel') == x;
      assert DepthWithin(d, p, fuel) == x;
    }
  }

  /** A stored block's depth depends only on its own entry and the depths below it. */
  lemma StepAgrees(d: Dag, d': Dag, k: Identity, fuel: nat, fuel': nat)
    requires k in d.blocks && k in d'.blocks && d.blocks[k] == d'.blocks[k]
    requires d.checkpoint == d'.checkpoint && d.checkpointDepth == d'.checkpointDepth
    requires Below(d, d.blocks[k].preds, fuel) == Below(d', d.blocks[k].preds, fuel')
    ensures DepthWithin(d, k, fuel + 1) == DepthWithin(d', k, fuel' + 1)
  {
    Unfold(d, k, fuel);
    Unfold(d', k, fuel');
  }

  /** A known depth has known depths below it. */
  lemma KnownBelow(d: Dag, k: Identity, fuel: nat, p: Identity)
    requires k in d.blocks && DepthStep(d, k, Below(d, d.blocks[k].preds, fuel)).Some?
    requires d.checkpoint != Some(k) && p in d.blocks[k].preds
    ensures DepthWithin(d, p, fuel).Some?
  {
    assert DepthWithin(d, p, fuel) in Below(d, d.blocks[k].preds, fuel);
  }

  // ---- more fuel changes nothing ----

  lemma {:induction false} MoreFuel(d: Dag, id: Identity, fuel: nat)
    requires DepthWithin(d, id, fuel).Some?
    ensures DepthWithin(d, id, fuel + 1) == DepthWithin(d, id, fuel)
    decreases fuel, 1
  {
    ResolvedDepth(d, id, fuel);
    ResolvedDepth(d, id, fuel + 1);
    MoreFuelStored(d, Resolve(d.blocks, id).value, fuel);
  }

  lemma {:induction false} MoreFuelStored(d: Dag, k: Identity, fuel: nat)
    requires k in d.blocks && fuel > 0 && DepthWithin(d, k, fuel).Some?
    ensures DepthWithin(d, k, fuel + 1) == DepthWithin(d, k, fuel)
    decreases fuel, 0
  {
    var less := fuel - 1;
    Unfold(d, k, less);
    if d.checkpoint == Some(k) {
      CheckpointDepthIsFixed(d, k, less, fuel);
    } else {
      MoreFuelBelow(d, k, less);
      StepAgrees(d, d, k, less, fuel);
    }
  }

  lemma CheckpointDepthIsFixed(d: Dag, k: Identity, fuel: nat, fuel': nat)
    requires k in d.blocks && d.checkpoint == Some(k) && DepthWithin(d, k, fuel + 1).Some?
    ensures DepthWithin(d, k, fuel + 1) == DepthWithin(d, k, fuel' + 1)
  {
    Unfold(d, k, fuel);
    Unfold(d, k, fuel');
  }

  lemma {:induction false} MoreFuelBelow(d: Dag, k: Identity, fuel: nat)
    requires k in d.blocks && d.checkpoint != Some(k) && DepthStep(d, k, Below(d, d.blocks[k].preds, fuel)).Some?
    ensures Below(d, d.blocks[k].preds, fuel) == Below(d, d.blocks[k].preds, fuel + 1)
    decreases fuel, 2
  {
    var refs := d.blocks[k].preds;
    forall p | p in refs ensures DepthWithin(d, p, fuel) == DepthWithin(d, p, fuel + 1) {
      KnownBelow(d, k, fuel, p);
      MoreFuel(d, p, fuel);
    }
    SameBelow(d, d, refs, fuel, fuel + 1);
  }

  /** The stored blocks whose depth is found with this much fuel. */
  ghost function Found(d: Dag, fuel: nat): set<Identity> {
    set id | id in d.blocks && DepthWithin(d, id, fuel).Some?
  }

  /** Once a fuel level finds nothing new, no later level does. */
  lemma FoundStable(d: Dag, fuel: nat)
    requires Found(d, fuel) == Found(d, fuel + 1)
    ensures Found(d, fuel + 1) == Found(d, fuel + 2)
  {
    forall id | id in d.blocks ensures DepthWithin(d, id, fuel + 2).Some? <==> DepthWithin(d, id, fuel + 1).Some? {
      if DepthWithin(d, id, fuel + 1).Some? {
        MoreFuel(d, id, fuel + 1);
      } else if DepthWithin(d, id, fuel + 2).Some? {
        NothingNew(d, id, fuel);
      }
    }
  }

  lemma NothingNew(d: Dag, id: Identity, fuel: nat)
    requires Found(d, fuel) == Found(d, fuel + 1) && id in d.blocks && DepthWithin(d, id, fuel + 2).Some?
    ensures DepthWithin(d, id, fuel + 1).Some?
  {
    Unfold(d, id, fuel + 1);
    Unfold(d, id, fuel);
    if d.checkpoint != Some(id) {
      var refs := d.blocks[id].preds;
      forall p | p in refs ensures DepthWithin(d, p, fuel) == DepthWithin(d, p, fuel + 1) {
        KnownBelow(d, id, fuel + 1, p);
        ResolvedDepth(d, p, fuel + 1);
        ResolvedDepth(d, p, fuel);
        assert Resolve(d.blocks, p).value in Found(d, fuel + 1);
        MoreFuel(d, p, fuel);
      }
      SameBelow(d, d, refs, fuel, fuel + 1);
    }
  }

  /** Every level finds a new block until none is left to find. */
  lemma {:induction false} FoundGrows(d: Dag, fuel: nat)
    ensures Found(d, fuel) == Found(d, fuel + 1) || |Found(d, fuel)| >= fuel
  {
    if fuel > 0 {
      FoundGrows(d, fuel - 1);
      if Found(d, fuel - 1) == Found(d, fuel) {
        FoundStable(d, fuel - 1);
      } else {
        forall id | id in Found(d, fuel - 1) ensures id in Found(d, fuel) { MoreFuel(d, id, fuel - 1); }
        assert Found(d, fuel) == Found(d, fuel - 1) + (Found(d, fuel) - Found(d, fuel - 1));
        assert Found(d, fuel) - Found(d, fuel - 1) != {};
      }
    }
  }

  lemma {:induction false} EnoughFuel(d: Dag, extra: nat)
    ensures Found(d, |d.blocks| + extra) == Found(d, |d.blocks|)
    ensures Found(d, |d.blocks| + extra) == Found(d, |d.blocks| + extra + 1)
  {
    var n := |d.blocks|;
    if extra == 0 {
      FoundGrows(d, n);
      if Found(d, n) != Found(d, n + 1) {
        AllFound(d, n);
      }
    } else {
      EnoughFuel(d, extra - 1);
      FoundStable(d, n + extra - 1);
    }
  }

  lemma AllFound(d: Dag, fuel: nat)
    requires |Found(d, fuel)| >= |d.blocks|
    ensures Found(d, fuel) == Found(d, fuel + 1)
  {
    FullSubset(Found(d, fuel), d.blocks.Keys);
    forall id | id in Found(d, fuel) ensures id in Found(d, fuel + 1) { MoreFuel(d, id, fuel); }
  }

  lemma FullSubset<T>(s: set<T>, t: set<T>)
    requires s <= t && |s| >= |t|
    ensures s == t
  {
    assert t == s + (t - s);
  }

  /** The depth does not depend on the fuel, as soon as there is as much as blocks. */
  lemma {:induction false} DepthIsFinal(d: Dag, id: Identity, fuel: nat)
    requires fuel >= |d.blocks|
    ensures DepthWithin(d, id, fuel) == Depth(d, id)
    decreases fuel
  {
    if Resolves(d.blocks, id) && fuel > |d.blocks| {
      DepthIsFinal(d, id, fuel - 1);
      EnoughFuel(d, fuel - 1 - |d.blocks|);
      ResolvedDepth(d, id, fuel);
      ResolvedDepth(d, id, fuel - 1);
      var k := Resolve(d.blocks, id).value;
      assert k in Found(d, fuel - 1) <==> k in Found(d, fuel);
      if k in Found(d, fuel - 1) { MoreFuel(d, id, fuel - 1); }
    }
  }

  /** The recursion of the definition: one more than the deepest predecessor. */
  lemma DepthEquation(d: Dag, id: Identity)
    requires id in d.blocks
    ensures Depth(d, id) == DepthStep(d, id, Below(d, d.blocks[id].preds, |d.blocks|))
  {
    DepthIsFinal(d, id, |d.blocks| + 1);
    Unfold(d, id, |d.blocks|);
  }

  // ---- growth ----

  /** `d'` is `d` with one new block; everything else a depth depends on is the same. */
  ghost predicate Grown(d: Dag, d': Dag, id: Identity, content: Content) {
    && OnePerConsensus(d.blocks) && FullyResolved(d.blocks) && id !in d.blocks && !HasVariant(d.blocks, id)
    && d'.blocks == d.blocks[id := content] && d'.checkpoint == d.checkpoint && d'.checkpointDepth == d.checkpointDepth
  }

  /** Inserting a new block into a closed store leaves the depth of every resolved reference unchanged. */
  lemma {:induction false} GrowthKeepsDepthWithin(d: Dag, d': Dag, id: Identity, content: Content, r: Identity,
                                                  fuel: nat)
    requires Grown(d, d', id, content) && Resolves(d.blocks, r)
    ensures DepthWithin(d', r, fuel) == DepthWithin(d, r, fuel)
    decreases fuel, 1
  {
    if fuel > 0 {
      ResolutionStable(d.blocks, id, content, r);
      ResolvedDepth(d, r, fuel);
      ResolvedDepth(d', r, fuel);
      GrowthKeepsStored(d, d', id, content, Resolve(d.blocks, r).value, fuel - 1);
    }
  }

  lemma {:induction false} GrowthKeepsStored(d: Dag, d': Dag, id: Identity, content: Content, k: Identity, fuel: nat)
    requires Grown(d, d', id, content) && k in d.blocks
    ensures DepthWithin(d', k, fuel + 1) == DepthWithin(d, k, fuel + 1)
    decreases fuel, 3
  {
    GrowthKeepsBelow(d, d', id, content, k, fuel);
    StepAgrees(d, d', k, fuel, fuel);
  }

  lemma {:induction false} GrowthKeepsBelow(d: Dag, d': Dag, id: Identity, content: Content, k: Identity, fuel: nat)
    requires Grown(d, d', id, content) && k in d.blocks
    ensures Below(d', d.blocks[k].preds, fuel) == Below(d, d.blocks[k].preds, fuel)
    decreases fuel, 2
  {
    var refs := d.blocks[k].preds;
    forall p | p in refs ensures DepthWithin(d, p, fuel) == DepthWithin(d', p, fuel) {
      assert p !in Unresolved(d.blocks, refs);
      GrowthKeepsDepthWithin(d, d', id, content, p, fuel);
    }
    SameBelow(d, d', refs, fuel, fuel);
  }

  lemma GrowthKeepsDepth(d: Dag, d': Dag, id: Identity, content: Content, r: Identity)
    requires Grown(d, d', id, content) && Resolves(d.blocks, r)
    ensures Depth(d', r) == Depth(d, r)
  {
    assert d'.blocks.Keys == d.blocks.Keys + {id} && |d'.blocks| == |d.blocks| + 1;
    GrowthKeepsDepthWithin(d, d', id, content, r, |d'.blocks|);
    DepthIsFinal(d, r, |d'.blocks|);
  }

  // ---- growth of any store keeps known depths ----

  /** One new block, whether or not the store is closed. */
  ghost predicate OneMoreBlock(d: Dag, d': Dag, id: Identity, content: Content) {
    && OnePerConsensus(d.blocks) && id !in d.blocks && !HasVariant(d.blocks, id)
    && d'.blocks == d.blocks[id := content] && d'.checkpoint == d.checkpoint && d'.checkpointDepth == d.checkpointDepth
  }

  /** A depth that is known never changes; only a block that had none, for want of an ancestor, may gain one. */
  lemma {:induction false} KnownDepthSurvives(d: Dag, d': Dag, id: Identity, content: Content, r: Identity)
    requires OneMoreBlock(d, d', id, content) && Depth(d, r).Some?
    ensures Depth(d', r) == Depth(d, r)
  {
    assert d'.blocks.Keys == d.blocks.Keys + {id} && |d'.blocks| == |d.blocks| + 1;
    DepthIsFinal(d, r, |d'.blocks|);
    KnownWithin(d, d', id, content, r, |d'.blocks|);
  }

  lemma {:induction false} KnownWithin(d: Dag, d': Dag, id: Identity, content: Content, r: Identity, fuel: nat)
    requires OneMoreBlock(d, d', id, content) && DepthWithin(d, r, fuel).Some?
    ensures DepthWithin(d', r, fuel) == DepthWithin(d, r, fuel)
    decreases fuel, 1
  {
    ResolutionStable(d.blocks, id, content, r);
    ResolvedDepth(d, r, fuel);
    ResolvedDepth(d', r, fuel);
    KnownStored(d, d', id, content, Resolve(d.blocks, r).value, fuel - 1);
  }

  lemma {:induction false} KnownStored(d: Dag, d': Dag, id: Identity, content: Content, k: Identity, fuel: nat)
    requires OneMoreBlock(d, d', id, content) && k in d.blocks && DepthWithin(d, k, fuel + 1).Some?
    ensures DepthWithin(d', k, fuel + 1) == DepthWithin(d, k, fuel + 1)
    decreases fuel, 3
  {
    Unfold(d, k, fuel);
    Unfold(d', k, fuel);
    if d.checkpoint != Some(k) {
      KnownPredecessors(d, d', id, content, k, fuel);
      StepAgrees(d, d', k, fuel, fuel);
    }
  }

  lemma {:induction false} KnownPredecessors(d: Dag, d': Dag, id: Identity, content: Content, k: Identity, fuel: nat)
    requires OneMoreBlock(d, d', id, content) && k in d.blocks && d.checkpoint != Some(k)
    requires DepthStep(d, k, Below(d, d.blocks[k].preds, fuel)).Some?
    ensures Below(d, d.blocks[k].preds, fuel) == Below(d', d.blocks[k].preds, fuel)
    decreases fuel, 2
  {
    var refs := d.blocks[k].preds;
    forall p | p in refs ensures DepthWithin(d, p, fuel) == DepthWithin(d', p, fuel) {
      KnownBelow(d, k, fuel, p);
      KnownWithin(d, d', id, content, p, fuel);
    }
    SameBelow(d, d', refs, fuel, fuel);
  }

  // ---- waves ----

  const U64: nat := 0x1_0000_0000_0000_0000

  function WaveOfRound(round: nat, wavelength: nat): Option<nat> {
    if wavelength == 0 then None else Some(round / wavelength)
  }

  function FirstRoundOfWave(wave: nat, wavelength: nat): Option<nat> {
    if wavelength == 0 || wave * wavelength >= U64 then None else Some(wave * wavelength)
  }

  function LastRoundOfWave(wave: nat, wavelength: nat): Option<nat> {
    match FirstRoundOfWave(wave, wavelength)
    case None => None
    case Some(first) => if first + (wavelength - 1) >= U64 then None else Some(first + (wavelength - 1))
  }
}
