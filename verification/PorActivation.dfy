/**
 * What must hold before reputation becomes consensus weight:
 * crates/cordial-f1r3node-adapter/src/live_ingress.rs.
 */
module PorActivation {
  import opened Basics
  import opened ByteOrder
  import opened Dags
  import opened OrderedOutput
  import opened Por
  import opened PrefixCheckpoints
  import opened PrefixReuse
  import opened ReputationBlocks
  import opened Rounds
  import opened Sorting
  import opened WeightProjection

  datatype WeightError =
    | FutureEpochActive | MembershipMismatch | Projection(ProjectionError)
    | MissingReputationCheckpoint | MissingFinalizedOutput | UnknownFinalizedAnchor | InvalidWavelength
    | CheckpointMismatch | CheckpointUnavailable | FinalizedWaveBehind(required: nat, available: nat)
    | WouldRewriteFinalizedLeader | WouldRewriteFinalizedOutput | ProspectiveOrderingFailed

  // ---- the source of the reputation ----

  /** The publication covers what the reputation block was computed from: its checkpoint, or its wave. */
  predicate SourceReached(hasher: Bytes -> Hash, d: Dag, published: Option<OrderedFinalizedOutput>,
                          state: ReputationState)
  {
    match state.latestBlock
    case None => state.round == 0
    case Some(block) =>
      && published.Some? && published.value.wavelength != 0 && published.value.anchor.Some?
      && match block.header.checkpoint
         case Some(source) => SealedBy(CheckpointOf(hasher, published.value, source.round), source)
         case None => WaveReached(d, published.value, block.header.finalizedWave)
  }

  predicate SealedBy(local: Result<Option<Checkpoint>, FinalityError>, source: Source) {
    local.Ok? && local.value.Some? && local.value.value.source == source
  }

  predicate WaveReached(d: Dag, output: OrderedFinalizedOutput, wave: nat)
    requires output.anchor.Some?
  {
    var round := Depth(d, output.anchor.value);
    round.Some? && output.wavelength != 0 && wave <= round.value / output.wavelength
  }

  method CheckSource(hasher: Bytes -> Hash, d: Dag, published: Option<OrderedFinalizedOutput>, state: ReputationState)
    returns (r: Result<(), WeightError>)
    ensures r.Ok? <==> SourceReached(hasher, d, published, state)
    ensures r.Err? ==> SourceError(r.error)
  {
    if state.round != 0 && state.latestBlock == None { return Err(MissingReputationCheckpoint); }
    if state.latestBlock == None { return Ok(()); }
    var header := state.latestBlock.value.header;
    if published == None { return Err(MissingFinalizedOutput); }
    var output := published.value;
    if output.wavelength == 0 { return Err(InvalidWavelength); }
    if output.anchor == None { return Err(MissingFinalizedOutput); }
    if header.checkpoint.Some? {
      var source := header.checkpoint.value;
      var local := FinalizedPrefixCheckpoint(hasher, output, source.round);
      if local.Err? { return Err(CheckpointMismatch); }
      if local.value == None { return Err(CheckpointUnavailable); }
      if local.value.value.source != source { return Err(CheckpointMismatch); }
    } else {
      var round := Depth(d, output.anchor.value);
      if round == None { return Err(UnknownFinalizedAnchor); }
      var available := WaveOfRound(round.value, output.wavelength);
      if available == None { return Err(InvalidWavelength); }
      if available.value < header.finalizedWave {
        return Err(FinalizedWaveBehind(header.finalizedWave, available.value));
      }
    }
    r := Ok(());
  }

  predicate SourceError(e: WeightError) {
    || e.MissingReputationCheckpoint? || e.MissingFinalizedOutput? || e.InvalidWavelength? || e.CheckpointMismatch?
    || e.CheckpointUnavailable? || e.UnknownFinalizedAnchor? || e.FinalizedWaveBehind?
  }

  /** A source that was reached stays reached: extending a publication never makes its reputation block unusable. */
  lemma SourceStaysReached(hasher: Bytes -> Hash, d: Dag, output: OrderedFinalizedOutput, later: OrderedFinalizedOutput,
                           state: ReputationState)
    requires SourceReached(hasher, d, Some(output), state) && output.blocks <= later.blocks
    requires later.anchor.Some? && later.wavelength != 0
    requires state.latestBlock.Some? ==> state.latestBlock.value.header.checkpoint.Some?
    ensures SourceReached(hasher, d, Some(later), state)
  {
    if state.latestBlock.Some? {
      var source := state.latestBlock.value.header.checkpoint.value;
      CheckpointIsStable(hasher, output, later, source.round, CheckpointOf(hasher, output, source.round).value.value);
    }
  }

  // ---- what is already final ----

  /** The final leader of the published anchor's wave stays under the new weights. */
  predicate KeepsLeader(o: Ordering, d: Dag, weights: Bonds, previous: OrderedFinalizedOutput) {
    previous.anchor.Some? && |weights| > 1 ==>
      var round := Depth(d, previous.anchor.value);
      && round.Some? && WaveOfRound(round.value, previous.wavelength).Some?
      && var wave := WaveOfRound(round.value, previous.wavelength).value;
         o.finalLeader(d, wave, previous.wavelength, weights) == previous.anchor
  }

  /** The full ordering under the new weights extends the published blocks. */
  predicate KeepsPrefix(o: Ordering, d: Dag, weights: Bonds, previous: OrderedFinalizedOutput) {
    var r := o.full(d, weights, previous.wavelength);
    r.Ok? && previous.blocks <= Strip(r.value.0)
  }

  /** Weights that rewrite nothing that was published. */
  predicate PreservesFinality(o: Ordering, d: Dag, weights: Bonds, published: Option<OrderedFinalizedOutput>) {
    published.Some? ==> KeepsLeader(o, d, weights, published.value) && KeepsPrefix(o, d, weights, published.value)
  }

  /** Order the lace under prospective weights and compare with what is published. */
  method CheckFinality(o: Ordering, d: Dag, published: Option<OrderedFinalizedOutput>, weights: Bonds)
    returns (r: Result<(), WeightError>)
    ensures r.Ok? <==> PreservesFinality(o, d, weights, published)
    ensures r.Err? ==> FinalityError(r.error)
  {
    if published == None { return Ok(()); }
    var previous := published.value;
    if previous.anchor.Some? && |weights| > 1 {
      var round := Depth(d, previous.anchor.value);
      if round == None { return Err(UnknownFinalizedAnchor); }
      var wave := WaveOfRound(round.value, previous.wavelength);
      if wave == None { return Err(InvalidWavelength); }
      if o.finalLeader(d, wave.value, previous.wavelength, weights) != previous.anchor {
        return Err(WouldRewriteFinalizedLeader);
      }
    }
    var prospective := o.full(d, weights, previous.wavelength);
    if prospective.Err? { return Err(ProspectiveOrderingFailed); }
    if !(previous.blocks <= Strip(prospective.value.0)) { return Err(WouldRewriteFinalizedOutput); }
    r := Ok(());
  }

  predicate FinalityError(e: WeightError) {
    || e.UnknownFinalizedAnchor? || e.InvalidWavelength? || e.WouldRewriteFinalizedLeader?
    || e.WouldRewriteFinalizedOutput? || e.ProspectiveOrderingFailed?
  }

  // ---- all checks ----

  /** These weights may be activated. */
  ghost predicate Activates(o: Ordering, hasher: Bytes -> Hash, d: Dag, published: Option<OrderedFinalizedOutput>,
                            state: ReputationState, validators: set<Bytes>, weights: Bonds)
  {
    && Projects(state, validators, weights) && !AllZero(weights)
    && SourceReached(hasher, d, published, state) && PreservesFinality(o, d, weights, published)
  }

  /** Why an activation is refused: the projection, its source, or finality, in this order. */
  ghost predicate ActivationRefusal(o: Ordering, hasher: Bytes -> Hash, d: Dag,
                                    published: Option<OrderedFinalizedOutput>, state: ReputationState,
                                    validators: set<Bytes>, e: WeightError)
  {
    match e
    case Projection(error) => ProjectionRefusal(state, validators, error)
    case _ =>
      || (SourceError(e) && !SourceReached(hasher, d, published, state))
      || (FinalityError(e) && SourceReached(hasher, d, published, state) &&
          exists weights :: Projects(state, validators, weights) && !AllZero(weights) &&
            !PreservesFinality(o, d, weights, published))
  }

  method CheckedWeights(o: Ordering, hasher: Bytes -> Hash, d: Dag, published: Option<OrderedFinalizedOutput>,
                        state: ReputationState, validators: set<Bytes>)
    returns (r: Result<Bonds, WeightError>)
    ensures r.Ok? ==> Activates(o, hasher, d, published, state, validators, r.value)
    ensures r.Err? ==> ActivationRefusal(o, hasher, d, published, state, validators, r.error)
  {
    var authorized := SortedKeys(validators);
    var weights := AuthorizedValidatorWeights(state, authorized);
    if weights.Err? { return Err(Projection(weights.error)); }
    var source := CheckSource(hasher, d, published, state);
    if source.Err? { return Err(source.error); }
    var finality := CheckFinality(o, d, published, weights.value);
    if finality.Err? { return Err(finality.error); }
    r := Ok(weights.value);
  }

  method SortedKeys(keys: set<Bytes>) returns (sorted: seq<Bytes>)
    ensures AsSet(sorted) == keys && Sorted(BytesLe, sorted)
  {
    var listed := Enumerate(keys);
    sorted := Sort(BytesLe, listed);
    BytesOrdered();
    SortSorted(BytesLe, listed);
    SortKeeps(BytesLe, listed);
  }

  /** Over a canonical list of a machine's size an activation is refused only when no weights may be activated, ... */
  lemma {:induction false} RefusedMeansNone(o: Ordering, hasher: Bytes -> Hash, d: Dag,
                                            published: Option<OrderedFinalizedOutput>, state: ReputationState,
                                            validators: set<Bytes>, e: WeightError, weights: Bonds)
    requires Ordered(state.list.entries) && |validators| <= Por.U64
    requires ActivationRefusal(o, hasher, d, published, state, validators, e)
    ensures !Activates(o, hasher, d, published, state, validators, weights)
  {
    ProjectionIsExact(state, validators);
  }

  /** ... and there is never a choice of weights. */
  lemma {:induction false} ActivatedIsUnique(o: Ordering, hasher: Bytes -> Hash, d: Dag,
                                             published: Option<OrderedFinalizedOutput>, state: ReputationState,
                                             validators: set<Bytes>, a: Bonds, b: Bonds)
    requires Ordered(state.list.entries) && |validators| <= Por.U64
    requires Activates(o, hasher, d, published, state, validators, a)
    requires Activates(o, hasher, d, published, state, validators, b)
    ensures a == b
  {
    ProjectionIsExact(state, validators);
  }
}
