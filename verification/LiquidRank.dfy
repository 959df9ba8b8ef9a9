/** Liquid-Rank contribution: crates/cordial-por/src/liquid_rank.rs. */
module LiquidRank {
  import opened Arithmetic
  import opened Basics
  import opened Chunking
  import opened Normalization
  import opened Por

  datatype RankError =
    | InvalidLiquidRankScale | DuplicateReputationEntry | UnsortedReputationVector
    | MissingRaterReputation | LiquidRankOverflow

  // ---- the weighted sum of one recipient ----

  ghost function WeightedSum(group: seq<NormalizedRating>, previous: seq<Entry>): nat {
    if group == [] then 0
    else
      var last := group[|group| - 1];
      Products(last.normalized, ReputationIn(previous, last.rater), 0);
      WeightedSum(group[..|group| - 1], previous) + last.normalized * ReputationIn(previous, last.rater)
  }

  /** The previous reputation of all the raters together. */
  ghost function RaterTotal(group: seq<NormalizedRating>, previous: seq<Entry>): nat {
    if group == [] then 0
    else RaterTotal(group[..|group| - 1], previous) + ReputationIn(previous, group[|group| - 1].rater)
  }

  ghost predicate AllKnown(group: seq<NormalizedRating>, previous: seq<Entry>) {
    forall k :: 0 <= k < |group| ==> HasNode(previous, group[k].rater)
  }

  ghost predicate WithinScale(group: seq<NormalizedRating>, scale: nat) {
    forall k :: 0 <= k < |group| ==> group[k].normalized <= scale
  }

  /** Scores within the scale weigh no rater more than fully. */
  lemma {:induction false} SumWithinTotal(group: seq<NormalizedRating>, previous: seq<Entry>, scale: nat)
    requires WithinScale(group, scale)
    ensures WeightedSum(group, previous) <= RaterTotal(group, previous) * scale
  {
    if group != [] {
      var front, last := group[..|group| - 1], group[|group| - 1];
      SumWithinTotal(front, previous, scale);
      var reputation: nat := ReputationIn(previous, last.rater);
      Products(last.normalized, reputation, scale);
      var total := RaterTotal(front, previous);
      assert (total + reputation) * scale == total * scale + scale * reputation;
    }
  }

  /** A contribution is at most the previous reputation of the raters behind it. */
  lemma {:induction false} ContributionBound(group: seq<NormalizedRating>, previous: seq<Entry>, scale: nat)
    requires WithinScale(group, scale) && scale > 0
    ensures WeightedSum(group, previous) / scale <= RaterTotal(group, previous)
  {
    SumWithinTotal(group, previous, scale);
    BoundedQuotient(WeightedSum(group, previous), scale, RaterTotal(group, previous));
  }

  lemma BoundedQuotient(sum: nat, scale: nat, total: nat)
    requires scale > 0 && sum <= total * scale
    ensures sum / scale <= total
  {
    assert (total + 1) * scale == total * scale + scale;
    QuotientIs(sum, scale, total);
  }

  lemma {:induction false} SumGrows(group: seq<NormalizedRating>, n: nat, previous: seq<Entry>)
    requires n <= |group|
    ensures WeightedSum(group[..n], previous) <= WeightedSum(group, previous)
  {
    if n < |group| {
      SumGrows(group[..|group| - 1], n, previous);
      assert group[..|group| - 1][..n] == group[..n];
      Products(group[|group| - 1].normalized, ReputationIn(previous, group[|group| - 1].rater), 0);
    } else {
      assert group[..n] == group;
    }
  }

  // ---- lookup ----

  /** Some entry gives the node this reputation. */
  ghost predicate Recorded(values: seq<Entry>, node: Bytes, reputation: u64) {
    exists i :: 0 <= i < |values| && values[i].nodeId == node && values[i].reputation == reputation
  }

  /** The recorded reputation: exact over a canonical vector, and what some entry says over any other. */
  method ReputationOf(previous: seq<Entry>, node: Bytes) returns (r: Result<u64, RankError>)
    ensures r.Ok? ==> Recorded(previous, node, r.value)
    ensures Ordered(previous) ==> (r.Ok? <==> HasNode(previous, node))
    ensures Ordered(previous) && r.Ok? ==> r.value == ReputationIn(previous, node)
    ensures r.Err? ==> r.error == MissingRaterReputation
  {
    var found := BinarySearch(previous, node);
    if found == None { return Err(MissingRaterReputation); }
    if Ordered(previous) { ReputationAt(previous, found.value); }
    r := Ok(previous[found.value].reputation);
  }

  method ValidatePreviousReputationOrder(values: seq<Entry>) returns (r: Result<(), RankError>)
    ensures r.Ok? <==> Ordered(values)
    ensures r == Err(DuplicateReputationEntry) ==>
      exists k :: 0 < k < |values| && values[k - 1].nodeId == values[k].nodeId
    ensures r == Err(UnsortedReputationVector) ==>
      exists k :: 0 < k < |values| && Less(values[k].nodeId, values[k - 1].nodeId)
    ensures r.Err? ==> r.error.DuplicateReputationEntry? || r.error.UnsortedReputationVector?
  {
    if values == [] { return Ok(()); }
    for i := 1 to |values|
      invariant forall k :: 0 < k < i && k < |values| ==> Less(values[k - 1].nodeId, values[k].nodeId)
    {
      var left, right := values[i - 1].nodeId, values[i].nodeId;
      LessIsStrict(left, right);
      if left == right { return Err(DuplicateReputationEntry); }
      if !Less(left, right) { return Err(UnsortedReputationVector); }
    }
    forall i, j | 0 <= i < j < |values| ensures Less(values[i].nodeId, values[j].nodeId) {
      NeighboursSuffice(values, i, j);
    }
    r := Ok(());
  }

  // ---- one recipient ----

  ghost predicate Rankable(group: seq<NormalizedRating>, previous: seq<Entry>, scale: u64)
    requires scale > 0
  {
    AllKnown(group, previous) && WeightedSum(group, previous) < U128 && WeightedSum(group, previous) / scale < U64
  }

  lemma OneMoreRating(group: seq<NormalizedRating>, i: nat, previous: seq<Entry>)
    requires i < |group|
    ensures AllKnown(group[..i + 1], previous) <==>
      AllKnown(group[..i], previous) && HasNode(previous, group[i].rater)
    ensures WeightedSum(group[..i + 1], previous) ==
      WeightedSum(group[..i], previous) + group[i].normalized * ReputationIn(previous, group[i].rater)
  {
    assert group[..i + 1][..i] == group[..i] && group[..i + 1] == group[..i] + [group[i]];
    if AllKnown(group[..i + 1], previous) { assert HasNode(previous, group[..i + 1][i].rater); }
  }

  /** The floored weighted sum under the group's recipient; an empty group adds nothing. */
  method PushRecipientContribution(group: seq<NormalizedRating>, previous: seq<Entry>, scale: u64, output: seq<Entry>)
    returns (r: Result<seq<Entry>, RankError>)
    requires scale > 0
    ensures group == [] ==> r == Ok(output)
    ensures group != [] && r.Ok? ==>
      exists reputation: u64 :: r.value == output + [NewEntry(group[0].recipient, reputation)]
    ensures Ordered(previous) ==> (r.Ok? <==> group == [] || Rankable(group, previous, scale))
    ensures Ordered(previous) && group != [] && r.Ok? ==>
      r.value == output + [NewEntry(group[0].recipient, WeightedSum(group, previous) / scale)]
    ensures Ordered(previous) && r == Err(LiquidRankOverflow) ==>
      WeightedSum(group, previous) >= U128 || WeightedSum(group, previous) / scale >= U64
    ensures Ordered(previous) && r == Err(MissingRaterReputation) ==> !AllKnown(group, previous)
    ensures r.Err? ==> r.error.MissingRaterReputation? || r.error.LiquidRankOverflow?
  {
    if group == [] { return Ok(output); }
    var sum: nat := 0;
    for i := 0 to |group|
      invariant sum < U128
      invariant Ordered(previous) ==> AllKnown(group[..i], previous) && sum == WeightedSum(group[..i], previous)
    {
      var rating := group[i];
      var reputation := ReputationOf(previous, rating.rater);
      if reputation.Err? {
        assert Ordered(previous) ==> !HasNode(previous, group[i].rater);
        return Err(reputation.error);
      }
      OneMoreRating(group, i, previous);
      Products(rating.normalized, reputation.value, 0);
      SumGrows(group, i + 1, previous);
      if sum + rating.normalized * reputation.value >= U128 { return Err(LiquidRankOverflow); }
      sum := sum + rating.normalized * reputation.value;
    }
    assert group[..|group|] == group;
    if sum / scale >= U64 { return Err(LiquidRankOverflow); }
    QuotientIs(sum, scale, 0);
    r := Ok(output + [NewEntry(group[0].recipient, sum / scale)]);
  }

  // ---- the vector ----

  function RatedRecipient(): NormalizedRating -> Bytes {
    (r: NormalizedRating) => r.recipient
  }

  /** One entry per recipient group, in order: the floored weighted sum. */
  ghost predicate Contributes(groups: seq<seq<NormalizedRating>>, previous: seq<Entry>, scale: u64, values: seq<Entry>)
    requires scale > 0 && NoneEmpty(groups)
  {
    |values| == |groups| && forall g :: 0 <= g < |groups| ==>
      Rankable(groups[g], previous, scale) &&
        values[g] == NewEntry(groups[g][0].recipient, WeightedSum(groups[g], previous) / scale)
  }

  ghost predicate AllRankable(groups: seq<seq<NormalizedRating>>, previous: seq<Entry>, scale: u64)
    requires scale > 0
  {
    forall g :: 0 <= g < |groups| ==> Rankable(groups[g], previous, scale)
  }

  lemma ContributesSnoc(groups: seq<seq<NormalizedRating>>, g: nat, previous: seq<Entry>, scale: u64,
                        values: seq<Entry>, more: seq<Entry>)
    requires scale > 0 && NoneEmpty(groups) && g < |groups|
    requires Contributes(groups[..g], previous, scale, values) && Rankable(groups[g], previous, scale)
    requires more == values + [NewEntry(groups[g][0].recipient, WeightedSum(groups[g], previous) / scale)]
    ensures Contributes(groups[..g + 1], previous, scale, more)
  {
    forall k | 0 <= k < g ensures groups[..g + 1][k] == groups[..g][k] && more[k] == values[k] {}
  }

  method ComputeLiquidRankContribution(ratings: seq<NormalizedRating>, round: u64, previous: Vector, scale: u64)
    returns (r: Result<Vector, RankError>)
    ensures r == Err(InvalidLiquidRankScale) <==> scale == 0
    ensures r.Ok? ==> Ordered(previous.values) && r.value.round == round
    ensures r.Ok? ==> Contributes(Chunks(RatedRecipient(), ratings), previous.values, scale, r.value.values)
    ensures scale > 0 ==>
      (r.Ok? <==> Ordered(previous.values) && AllRankable(Chunks(RatedRecipient(), ratings), previous.values, scale))
  {
    if scale == 0 { return Err(InvalidLiquidRankScale); }
    var order := ValidatePreviousReputationOrder(previous.values);
    if order.Err? { return Err(order.error); }
    var groups := Chunks(RatedRecipient(), ratings);
    var values: seq<Entry> := [];
    for g := 0 to |groups|
      invariant Contributes(groups[..g], previous.values, scale, values)
    {
      var next := PushRecipientContribution(groups[g], previous.values, scale, values);
      if next.Err? {
        assert !Rankable(groups[g], previous.values, scale);
        return Err(next.error);
      }
      ContributesSnoc(groups, g, previous.values, scale, values, next.value);
      values := next.value;
    }
    assert groups[..|groups|] == groups;
    r := Ok(Vector(round, values));
  }

  // ---- normalize, then rank ----

  /** Neighbouring groups differ, so over a matrix sorted by recipient the contributions are in strict node order. */
  lemma {:induction false} ContributionsAreOrdered(ratings: seq<NormalizedRating>, previous: seq<Entry>, scale: u64,
                                                   values: seq<Entry>)
    requires scale > 0 && Contributes(Chunks(RatedRecipient(), ratings), previous, scale, values)
    requires ByRecipient(ratings)
    ensures Ordered(values)
  {
    var groups := Chunks(RatedRecipient(), ratings);
    ChunksAreRuns(RatedRecipient(), ratings);
    forall g | 0 < g < |groups| ensures Less(values[g - 1].nodeId, values[g].nodeId) {
      HeadsInOrder(groups, g);
      LessIsStrict(values[g - 1].nodeId, values[g].nodeId);
    }
    forall i, j | 0 <= i < j < |values| ensures Less(values[i].nodeId, values[j].nodeId) {
      NeighboursSuffice(values, i, j);
    }
  }

  /** Recipients never decrease. */
  ghost predicate ByRecipient(ratings: seq<NormalizedRating>) {
    forall i, j :: 0 <= i < j < |ratings| ==> !Less(ratings[j].recipient, ratings[i].recipient)
  }

  lemma {:induction false} HeadsInOrder(groups: seq<seq<NormalizedRating>>, g: int)
    requires NoneEmpty(groups) && 0 < g < |groups| && ByRecipient(Concat(groups))
    ensures !Less(groups[g][0].recipient, groups[g - 1][0].recipient)
  {
    var flat, tail, rest := Concat(groups), groups[1..], Concat(groups[1..]);
    var n := |groups[0]|;
    assert flat == groups[0] + rest;
    if g == 1 {
      assert rest == tail[0] + Concat(tail[1..]);
      assert flat[0] == groups[0][0] && flat[n] == rest[0] == groups[1][0];
    } else {
      assert ByRecipient(rest) by {
        forall i, j | 0 <= i < j < |rest| ensures !Less(rest[j].recipient, rest[i].recipient) {
          assert rest[i] == flat[n + i] && rest[j] == flat[n + j];
        }
      }
      HeadsInOrder(tail, g - 1);
    }
  }

  /** Over a normalized matrix every contribution is at most the previous reputation of its raters. */
  lemma {:induction false} NormalizedContributionBound(groups: seq<seq<Rating>>, previous: seq<Entry>, scale: u64,
                                                       g: int)
    requires scale > 0 && NoneEmpty(groups)
    requires var chunks := Chunks(RatedRecipient(), NormalizedGroups(groups, scale)); 0 <= g < |chunks|
    ensures var chunk := Chunks(RatedRecipient(), NormalizedGroups(groups, scale))[g];
      WeightedSum(chunk, previous) / scale <= RaterTotal(chunk, previous)
  {
    var ratings := NormalizedGroups(groups, scale);
    var chunks := Chunks(RatedRecipient(), ratings);
    NormalizedMatrix(groups, scale);
    ChunksAreRuns(RatedRecipient(), ratings);
    var chunk: seq<NormalizedRating> := chunks[g];
    forall k | 0 <= k < |chunk| ensures chunk[k].normalized <= scale {
      ConcatHas(chunks, g, chunk[k]);
      var m :| 0 <= m < |ratings| && ratings[m] == chunk[k];
    }
    ContributionBound(chunk, previous, scale);
  }
}
