/**
 * What the live ingress may reuse of a finalized output: strict growth past the anchor's wave
 * and the contract of the ordering functions.
 */
module PrefixReuse {
  import opened Basics
  import opened Dags
  import opened Lace
  import opened Mirror
  import opened OrderedOutput
  import opened Rounds

  // ---- growth past a round ----

  /** Strict insertions, each deeper than `floor` when it was made. */
  ghost predicate DeepOrder(d: Dag, order: seq<Block>, floor: nat) {
    order == [] ||
    var front, last := order[..|order| - 1], order[|order| - 1];
    && DeepOrder(d, front, floor)
    && Insertable(Inserted(d, front).blocks, last)
    && Deeper(Inserted(d, order), last.identity, floor)
  }

  predicate Deeper(d: Dag, id: Identity, floor: nat) {
    Depth(d, id).Some? && Depth(d, id).value > floor
  }

  predicate Shallow(d: Dag, id: Identity, floor: nat) {
    id in d.blocks && Depth(d, id).Some? && Depth(d, id).value <= floor
  }

  /** `now` is `saved` after strict insertions past `floor`, and nothing else. */
  ghost predicate ExtendsPast(saved: Dag, now: Dag, floor: nat) {
    exists order :: DeepOrder(saved, order, floor) && now == Inserted(saved, order)
  }

  lemma {:induction false} DeepIsStrict(d: Dag, order: seq<Block>, floor: nat)
    requires DeepOrder(d, order, floor)
    ensures StrictOrder(d, order)
  {
    if order != [] { DeepIsStrict(d, order[..|order| - 1], floor); }
  }

  lemma {:induction false} ExtendOnce(saved: Dag, now: Dag, floor: nat, block: Block)
    requires ExtendsPast(saved, now, floor) && Insertable(now.blocks, block)
    requires Deeper(Committed(now, block.identity, block.content), block.identity, floor)
    ensures ExtendsPast(saved, Committed(now, block.identity, block.content), floor)
  {
    var order :| DeepOrder(saved, order, floor) && now == Inserted(saved, order);
    DeepIsStrict(saved, order, floor);
    InsertedSnoc(saved, order, block);
    DeepSnoc(saved, order, floor, block);
  }

  lemma DeepSnoc(d: Dag, order: seq<Block>, floor: nat, block: Block)
    requires DeepOrder(d, order, floor) && Insertable(Inserted(d, order).blocks, block)
    requires Deeper(Inserted(d, order + [block]), block.identity, floor)
    ensures DeepOrder(d, order + [block], floor)
  {
    assert (order + [block])[..|order|] == order;
  }

  lemma {:induction false} ExtendNone(d: Dag, floor: nat)
    ensures ExtendsPast(d, d, floor)
  {
    assert DeepOrder(d, [], floor) && Inserted(d, []) == d;
  }

  /** Such growth leaves the blocks up to `floor` exactly as they were, and every old depth. */
  lemma {:induction false} DeepOrderKeepsShallow(d: Dag, order: seq<Block>, floor: nat)
    requires OnePerConsensus(d.blocks) && FullyResolved(d.blocks) && DeepOrder(d, order, floor)
    ensures var d' := Inserted(d, order);
      && OnePerConsensus(d'.blocks) && FullyResolved(d'.blocks)
      && (forall id :: id in d.blocks ==>
        id in d'.blocks && d'.blocks[id] == d.blocks[id] && Depth(d', id) == Depth(d, id))
      && (forall id :: Shallow(d', id, floor) <==> Shallow(d, id, floor))
  {
    if order != [] {
      var front, last := order[..|order| - 1], order[|order| - 1];
      DeepOrderKeepsShallow(d, front, floor);
      OneDeepInsert(Inserted(d, front), last, floor);
    }
  }

  lemma {:induction false} OneDeepInsert(d: Dag, block: Block, floor: nat)
    requires OnePerConsensus(d.blocks) && FullyResolved(d.blocks) && Insertable(d.blocks, block)
    requires Deeper(Committed(d, block.identity, block.content), block.identity, floor)
    ensures var d' := Committed(d, block.identity, block.content);
      && OnePerConsensus(d'.blocks) && FullyResolved(d'.blocks)
      && (forall id :: id in d.blocks ==>
        id in d'.blocks && d'.blocks[id] == d.blocks[id] && Depth(d', id) == Depth(d, id))
      && (forall id :: Shallow(d', id, floor) <==> Shallow(d, id, floor))
  {
    var d' := Committed(d, block.identity, block.content);
    GrowthExtendsGraph(d.blocks, block.identity, block.content);
    InsertKeepsUnique(d.blocks, block.identity, block.content);
    forall id | id in d.blocks ensures Depth(d', id) == Depth(d, id) {
      assert ResolvesTo(d.blocks, id, id);
      GrowthKeepsDepth(d, d', block.identity, block.content, id);
    }
  }

  lemma {:induction false} ExtendsPastKeepsShallow(saved: Dag, now: Dag, floor: nat)
    requires OnePerConsensus(saved.blocks) && FullyResolved(saved.blocks) && ExtendsPast(saved, now, floor)
    ensures forall id :: id in saved.blocks ==>
      id in now.blocks && now.blocks[id] == saved.blocks[id] && Depth(now, id) == Depth(saved, id)
    ensures forall id :: Shallow(now, id, floor) <==> Shallow(saved, id, floor)
  {
    var order :| DeepOrder(saved, order, floor) && now == Inserted(saved, order);
    DeepOrderKeepsShallow(saved, order, floor);
  }

  // ---- the ordering functions ----

  type Bonds = map<Bytes, nat>
  type FullOrder = Result<(seq<Identity>, Option<Identity>), ()>
  type SuffixOrder = Result<Option<(seq<Identity>, Identity)>, ()>

  /** Weighted ordering of a whole lace, its extension of a known prefix, and the final leader of one wave. */
  datatype Ordering = Ordering(
    full: (Dag, Bonds, nat) -> FullOrder,
    suffix: (Dag, Bonds, nat, seq<Identity>, Identity) -> SuffixOrder,
    finalLeader: (Dag, nat, nat, Bonds) -> Option<Identity>)

  /** The last round of the wave that holds the anchor. */
  function AnchorWaveEnd(d: Dag, anchor: Identity, wavelength: nat): Option<nat> {
    match Depth(d, anchor)
    case None => None
    case Some(round) =>
      match WaveOfRound(round, wavelength)
      case None => None
      case Some(wave) => LastRoundOfWave(wave, wavelength)
  }

  /** The verified-prefix helper: it answers only for several validators, no checkpoint and no boundary. */
  function VerifiedPrefix(o: Ordering, d: Dag, bonds: Bonds, wavelength: nat, prefix: seq<Identity>, anchor: Identity)
    : SuffixOrder
  {
    if |bonds| < 2 || d.checkpoint.Some? || d.trusted != map[] then Ok(None)
    else o.suffix(d, bonds, wavelength, prefix, anchor)
  }

  /** The ordering of `d` is `blocks` up to `anchor`, signatures aside. */
  ghost predicate Orders(o: Ordering, d: Dag, bonds: Bonds, wavelength: nat,
                         blocks: seq<Identity>, anchor: Option<Identity>)
  {
    var r := o.full(d, bonds, wavelength);
    r.Ok? && Strip(r.value.0) == blocks && StripAnchor(r.value.1) == anchor
  }

  /** `now` is a closed `saved` after strict insertions past the wave of `anchor`, which ends at `end`. */
  ghost predicate GrownPast(saved: Dag, now: Dag, anchor: Identity, wavelength: nat, end: nat) {
    && OnePerConsensus(saved.blocks) && FullyResolved(saved.blocks)
    && AnchorWaveEnd(saved, anchor, wavelength) == Some(end)
    && ExtendsPast(saved, now, end)
  }

  /** The helper's caller must have established that, and that `prefix` up to `anchor` is the ordering of `saved`. */
  ghost predicate Justified(o: Ordering, saved: Dag, now: Dag, bonds: Bonds, wavelength: nat,
                            prefix: seq<Identity>, anchor: Identity)
  {
    && Orders(o, saved, bonds, wavelength, prefix, Some(anchor))
    && exists end :: GrownPast(saved, now, anchor, wavelength, end)
  }

  /** The helper's promise: whenever the obligation is met and it answers, the answer is the full ordering. */
  ghost predicate SuffixContract(o: Ordering) {
    forall saved, now, bonds, wavelength, prefix, anchor ::
      Justified(o, saved, now, bonds, wavelength, prefix, anchor) ==>
      SuffixAnswers(o, now, bonds, wavelength, prefix, anchor)
  }

  ghost predicate SuffixAnswers(o: Ordering, now: Dag, bonds: Bonds, wavelength: nat,
                                prefix: seq<Identity>, anchor: Identity)
  {
    var r := VerifiedPrefix(o, now, bonds, wavelength, prefix, anchor);
    r.Ok? && r.value.Some? ==>
      Orders(o, now, bonds, wavelength, Strip(r.value.value.0), Some(Unsigned(r.value.value.1)))
  }
}
