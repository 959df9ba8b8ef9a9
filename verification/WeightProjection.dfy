/** Reputation as consensus weight: crates/cordial-por/src/weights.rs. */
module WeightProjection {
  import opened Basics
  import opened Por
  import opened ReputationBlocks

  datatype ReputationState = ReputationState(
    round: u64,
    list: ReputationList,
    ejected: set<Bytes>,
    latestBlock: Option<ReputationBlock>)

  datatype ProjectionError =
    | EmptyAuthorizedSet | MissingReputation(Bytes) | WeightOverflow | ZeroTotalWeight

  /** Excluded and ejected validators weigh nothing. */
  function Exported(state: ReputationState, entry: Entry): u64 {
    if entry.excluded || entry.nodeId in state.ejected then 0 else entry.reputation
  }

  /** Some entry of the validator exports this weight. */
  ghost predicate Weighs(state: ReputationState, validator: Bytes, weight: nat) {
    exists i :: 0 <= i < |state.list.entries| && state.list.entries[i].nodeId == validator &&
      weight == Exported(state, state.list.entries[i])
  }

  /** In a canonical list every validator has one weight. */
  lemma WeightIsUnique(state: ReputationState, validator: Bytes, v: nat, w: nat)
    requires Ordered(state.list.entries) && Weighs(state, validator, v) && Weighs(state, validator, w)
    ensures v == w
  {
    var entries := state.list.entries;
    var i :| 0 <= i < |entries| && entries[i].nodeId == validator && v == Exported(state, entries[i]);
    var j :| 0 <= j < |entries| && entries[j].nodeId == validator && w == Exported(state, entries[j]);
    OnePlace(entries, i, j);
  }

  lemma OnePlace(entries: seq<Entry>, i: nat, j: nat)
    requires Ordered(entries) && i < |entries| && j < |entries| && entries[i].nodeId == entries[j].nodeId
    ensures i == j
  {}

  /** The validators are exactly those that were authorized, each under a weight of its own. */
  ghost predicate Projects(state: ReputationState, validators: set<Bytes>, weights: map<Bytes, nat>) {
    weights.Keys == validators && forall v :: v in weights ==> Weighs(state, v, weights[v])
  }

  /** Every authorized validator is listed, and one of them weighs something. */
  ghost predicate Projectable(state: ReputationState, validators: set<Bytes>) {
    && (forall v :: v in validators ==> HasNode(state.list.entries, v))
    && exists v, w: nat :: v in validators && w > 0 && Weighs(state, v, w)
  }

  /** What each refusal says. */
  ghost predicate ProjectionRefusal(state: ReputationState, validators: set<Bytes>, e: ProjectionError) {
    match e
    case EmptyAuthorizedSet => validators == {}
    case MissingReputation(v) => v in validators && (Ordered(state.list.entries) ==> !HasNode(state.list.entries, v))
    case WeightOverflow => |validators| > U64
    case ZeroTotalWeight =>
      validators != {} && exists weights :: Projects(state, validators, weights) && AllZero(weights)
  }

  ghost predicate AllZero(weights: map<Bytes, nat>) {
    forall v :: v in weights ==> weights[v] == 0
  }

  /** Project the listed reputations onto the authorized validators. */
  method AuthorizedValidatorWeights(state: ReputationState, authorized: seq<Bytes>)
    returns (r: Result<map<Bytes, nat>, ProjectionError>)
    ensures var validators := AsSet(authorized);
      && (r.Ok? ==> Projects(state, validators, r.value) && !AllZero(r.value))
      && (r.Err? ==> ProjectionRefusal(state, validators, r.error))
  {
    if authorized == [] { return Err(EmptyAuthorizedSet); }
    var weights: map<Bytes, nat> := map[];
    var total: nat := 0;
    for i := 0 to |authorized|
      invariant Projects(state, AsSet(authorized[..i]), weights)
      invariant total <= |weights| * (U64 - 1) && (total == 0 <==> AllZero(weights))
    {
      var validator := authorized[i];
      AsSetSnoc(authorized, i);
      if validator !in weights {
        var weight := ListedWeight(state, validator);
        if weight == None { return Err(MissingReputation(validator)); }
        if total + weight.value >= U128 {
          TooMany(authorized, i, weights, weight.value, total);
          return Err(WeightOverflow);
        }
        WeightAdded(state, AsSet(authorized[..i]), weights, total, validator, weight.value);
        total := total + weight.value;
        weights := weights[validator := weight.value];
      } else {
        assert AsSet(authorized[..i]) + {validator} == AsSet(authorized[..i]);
      }
    }
    assert authorized[..|authorized|] == authorized && authorized[0] in AsSet(authorized);
    if total == 0 { return Err(ZeroTotalWeight); }
    r := Ok(weights);
  }

  method ListedWeight(state: ReputationState, validator: Bytes) returns (r: Option<u64>)
    ensures r.Some? ==> Weighs(state, validator, r.value)
    ensures Ordered(state.list.entries) ==> (r.Some? <==> HasNode(state.list.entries, validator))
  {
    var found := BinarySearch(state.list.entries, validator);
    r := if found == None then None else Some(Exported(state, state.list.entries[found.value]));
  }

  lemma WeightAdded(state: ReputationState, counted: set<Bytes>, weights: map<Bytes, nat>, total: nat,
                    validator: Bytes, weight: u64)
    requires Projects(state, counted, weights) && validator !in weights && Weighs(state, validator, weight)
    requires total <= |weights| * (U64 - 1) && (total == 0 <==> AllZero(weights))
    ensures var more := weights[validator := weight];
      && Projects(state, counted + {validator}, more)
      && total + weight <= |more| * (U64 - 1) && (total + weight == 0 <==> AllZero(more))
  {
    var more := weights[validator := weight];
    assert |more| == |weights| + 1;
    assert more[validator] == weight && forall v :: v in weights ==> more[v] == weights[v];
  }

  /** Only more than 2^64 validators can overflow the total. */
  lemma TooMany(authorized: seq<Bytes>, i: nat, weights: map<Bytes, nat>, weight: u64, total: nat)
    requires i < |authorized| && weights.Keys == AsSet(authorized[..i]) && authorized[i] !in weights
    requires total <= |weights| * (U64 - 1) && total + weight >= U128
    ensures |AsSet(authorized)| > U64
  {
    var counted := weights.Keys + {authorized[i]};
    assert |counted| == |weights| + 1;
    SubsetSize(counted, AsSet(authorized));
  }

  /** Over a canonical list of a machine's size the projection succeeds exactly when it can, in one way only. */
  lemma {:induction false} ProjectionIsExact(state: ReputationState, validators: set<Bytes>)
    requires Ordered(state.list.entries) && |validators| <= U64
    ensures Projectable(state, validators) ==> forall e :: !ProjectionRefusal(state, validators, e)
    ensures (exists weights :: Projects(state, validators, weights) && !AllZero(weights)) ==>
      Projectable(state, validators)
    ensures forall a, b :: Projects(state, validators, a) && Projects(state, validators, b) ==> a == b
  {
    forall a, b | Projects(state, validators, a) && Projects(state, validators, b) ensures a == b {
      forall v | v in a ensures a[v] == b[v] { WeightIsUnique(state, v, a[v], b[v]); }
    }
    forall weights | Projects(state, validators, weights) && !AllZero(weights)
      ensures Projectable(state, validators)
    {
      var v :| v in weights && weights[v] != 0;
      assert Weighs(state, v, weights[v]);
    }
    if Projectable(state, validators) {
      var v, w: nat :| v in validators && w > 0 && Weighs(state, v, w);
      forall weights | Projects(state, validators, weights) ensures !AllZero(weights) {
        WeightIsUnique(state, v, w, weights[v]);
      }
    }
  }
}
