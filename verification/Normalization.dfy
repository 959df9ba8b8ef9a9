/** Rating normalization per recipient: crates/cordial-por/src/normalization.rs. */
module Normalization {
  import opened Arithmetic
  import opened Basics
  import opened Chunking
  import opened Por

  datatype NormalizationError = InvalidNormalizationScale | NormalizationOverflow

  // ---- one score ----

  function NormalizedScore(delta: nat, scale: nat, range: nat): int
    requires scale > 0
  {
    ((delta + scale) * scale) / (range + scale)
  }

  /** The top score maps exactly to the scale. */
  lemma {:induction false} TopMapsToScale(scale: nat, range: nat)
    requires scale > 0
    ensures NormalizedScore(range, scale, range) == scale
  {
    var d := range + scale;
    QuotientIs(scale * d, d, scale);
    assert (scale + 1) * d == scale * d + d;
    assert d * scale == scale * d;
    Products(scale, d, scale);
  }

  /** ... and nothing else does. */
  lemma OnlyTopMapsToScale(delta: nat, scale: nat, range: nat)
    requires scale > 0 && delta <= range && NormalizedScore(delta, scale, range) == scale
    ensures delta == range
  {
    var d := range + scale;
    Products(delta + scale, scale, 0);
    QuotientIs((delta + scale) * scale, d, scale);
    assert scale * d == d * scale;
    MulOrder(d, delta + scale, scale);
  }

  lemma {:induction false} TopOnly(delta: nat, scale: nat, range: nat)
    requires scale > 0 && delta <= range
    ensures NormalizedScore(delta, scale, range) == scale <==> delta == range
  {
    TopMapsToScale(scale, range);
    if NormalizedScore(delta, scale, range) == scale { OnlyTopMapsToScale(delta, scale, range); }
  }

  lemma RatingTop(a: Rating, low: u64, range: nat, scale: u64, normalized: nat)
    requires scale > 0 && low <= a.score && a.score - low <= range
    requires normalized == NormalizedRatingOf(a, low, range, scale).normalized
    ensures normalized == scale <==> a.score - low == range
  {}

  lemma {:induction false} RatingOrder(a: Rating, b: Rating, low: u64, range: nat, scale: u64)
    requires scale > 0 && low <= a.score <= b.score && b.score - low <= range
    ensures NormalizedRatingOf(a, low, range, scale).normalized <= NormalizedRatingOf(b, low, range, scale).normalized
  {
    NormalizedOrder(a.score - low, b.score - low, scale, range);
  }

  /** A larger distance from the lowest score never normalizes to less, and nothing exceeds the scale. */
  lemma {:induction false} NormalizedOrder(a: nat, b: nat, scale: nat, range: nat)
    requires scale > 0 && a <= b <= range
    ensures 0 <= NormalizedScore(a, scale, range) <= NormalizedScore(b, scale, range) <= scale
  {
    TopMapsToScale(scale, range);
    NormalizedStep(a, b, scale, range);
    NormalizedStep(b, range, scale, range);
  }

  lemma {:induction false} NormalizedStep(a: nat, b: nat, scale: nat, range: nat)
    requires scale > 0 && a <= b
    ensures 0 <= NormalizedScore(a, scale, range) <= NormalizedScore(b, scale, range)
  {
    var d := range + scale;
    Products(a + scale, scale, b + scale);
    QuotientIs((a + scale) * scale, d, 0);
    QuotientIs((a + scale) * scale, d, NormalizedScore(a, scale, range));
    QuotientIs((b + scale) * scale, d, NormalizedScore(a, scale, range));
  }

  // ---- one recipient ----

  function Lowest(group: seq<Rating>): (r: u64)
    requires group != []
    ensures forall k :: 0 <= k < |group| ==> r <= group[k].score
    ensures exists k :: 0 <= k < |group| && group[k].score == r
  {
    var front, last := group[..|group| - 1], group[|group| - 1].score;
    if front == [] || last < Lowest(front) then
      assert group[|group| - 1].score == last;
      last
    else
      assert forall k :: 0 <= k < |front| ==> group[k] == front[k];
      Lowest(front)
  }

  function Highest(group: seq<Rating>): (r: u64)
    requires group != []
    ensures forall k :: 0 <= k < |group| ==> group[k].score <= r
    ensures exists k :: 0 <= k < |group| && group[k].score == r
  {
    var front, last := group[..|group| - 1], group[|group| - 1].score;
    if front == [] || last > Highest(front) then
      assert group[|group| - 1].score == last;
      last
    else
      assert forall k :: 0 <= k < |front| ==> group[k] == front[k];
      Highest(front)
  }

  /** The group's denominator times the scale does not fit 128 bits. */
  predicate GroupOverflows(group: seq<Rating>, scale: u64)
    requires group != [] && scale > 0
  {
    Highest(group) - Lowest(group) + scale > (U128 - 1) / scale
  }

  function NormalizedRatingOf(rating: Rating, low: u64, range: nat, scale: u64): (r: NormalizedRating)
    requires scale > 0 && low <= rating.score && rating.score - low <= range
    ensures r.normalized <= scale && r.rater == rating.rater && r.recipient == rating.recipient
    ensures r.score == rating.score
    ensures r.normalized == scale <==> rating.score - low == range
  {
    NormalizedOrder(rating.score - low, range, scale, range);
    TopOnly(rating.score - low, scale, range);
    NormalizedRating(rating.rater, rating.recipient, rating.score, NormalizedScore(rating.score - low, scale, range))
  }

  /** Each normalized rating belongs to the rating at its place and stays within the scale. */
  ghost predicate Follows(r: seq<NormalizedRating>, ratings: seq<Rating>, scale: u64) {
    |r| == |ratings| && forall k :: 0 <= k < |r| ==>
      r[k].normalized <= scale && r[k].rater == ratings[k].rater && r[k].recipient == ratings[k].recipient &&
        r[k].score == ratings[k].score
  }

  lemma FollowsConcat(a: seq<NormalizedRating>, x: seq<Rating>, b: seq<NormalizedRating>, y: seq<Rating>, scale: u64)
    requires Follows(a, x, scale) && Follows(b, y, scale)
    ensures Follows(a + b, x + y, scale)
  {}

  /** One rating of a group, its score scaled between the group's extremes. */
  function NormalizedIn(group: seq<Rating>, k: int, scale: u64): (r: NormalizedRating)
    requires 0 <= k < |group| && scale > 0
    ensures r.normalized <= scale && r.rater == group[k].rater && r.recipient == group[k].recipient
    ensures r.score == group[k].score
  {
    NormalizedRatingOf(group[k], Lowest(group), Highest(group) - Lowest(group), scale)
  }

  /** Every rating of the group, in order. */
  function NormalizedGroup(group: seq<Rating>, scale: u64): (r: seq<NormalizedRating>)
    requires group != [] && scale > 0
    ensures |r| == |group| && Follows(r, group, scale)
    ensures forall k :: 0 <= k < |group| ==> r[k] == NormalizedIn(group, k, scale)
  {
    seq(|group|, k requires 0 <= k < |group| => NormalizedIn(group, k, scale))
  }

  /** The order of the scores is kept. */
  lemma {:induction false} GroupKeepsOrder(group: seq<Rating>, scale: u64, a: int, b: int)
    requires group != [] && scale > 0 && 0 <= a < |group| && 0 <= b < |group| && group[a].score <= group[b].score
    ensures NormalizedGroup(group, scale)[a].normalized <= NormalizedGroup(group, scale)[b].normalized
  {
    RatingOrder(group[a], group[b], Lowest(group), Highest(group) - Lowest(group), scale);
  }

  /** Exactly the ratings with the highest score get the scale. */
  lemma TopGetsScale(group: seq<Rating>, scale: u64, k: int)
    requires group != [] && scale > 0 && 0 <= k < |group|
    ensures NormalizedGroup(group, scale)[k].normalized == scale <==> group[k].score == Highest(group)
  {
    RatingTop(group[k], Lowest(group), Highest(group) - Lowest(group), scale,
      NormalizedGroup(group, scale)[k].normalized);
  }

  /** Find the extremes, refuse an overflowing denominator, then scale each score. */
  method NormalizeRecipientGroup(group: seq<Rating>, scale: u64, output: seq<NormalizedRating>)
    returns (r: Result<seq<NormalizedRating>, NormalizationError>)
    requires scale > 0
    ensures r.Ok? <==> group == [] || !GroupOverflows(group, scale)
    ensures r.Ok? ==> r.value == if group == [] then output else output + NormalizedGroup(group, scale)
    ensures r.Err? ==> r.error == NormalizationOverflow
  {
    if group == [] { return Ok(output); }
    var min, max := Extremes(group);
    if max - min + scale > (U128 - 1) / scale { return Err(NormalizationOverflow); }
    forall delta: int | 0 <= delta <= max - min
      ensures Fits128(delta, scale)
    {
      NumeratorFits(delta, max - min, scale);
    }
    var normalized := ScoreGroup(group, min, max, scale, output);
    r := Ok(normalized);
  }

  method ScoreGroup(group: seq<Rating>, min: u64, max: u64, scale: u64, output: seq<NormalizedRating>)
    returns (normalized: seq<NormalizedRating>)
    requires group != [] && min == Lowest(group) && max == Highest(group) && min <= max
    requires scale > 0 && NumeratorsFit(max - min, scale)
    ensures normalized == output + NormalizedGroup(group, scale)
  {
    normalized := output;
    ghost var all := NormalizedGroup(group, scale);
    for i := 0 to |group|
      invariant normalized == output + all[..i]
    {
      var entry := ScoreAt(group, i, min, max, scale);
      AppendNext(output, all, i);
      normalized := normalized + [entry];
    }
    assert all[..|group|] == all;
  }

  lemma AppendNext<T>(output: seq<T>, all: seq<T>, i: nat)
    requires i < |all|
    ensures output + all[..i + 1] == output + all[..i] + [all[i]]
  {}

  method ScoreAt(group: seq<Rating>, k: int, min: u64, max: u64, scale: u64) returns (entry: NormalizedRating)
    requires 0 <= k < |group| && min == Lowest(group) && max == Highest(group) && min <= max
    requires scale > 0 && NumeratorsFit(max - min, scale)
    ensures entry == NormalizedIn(group, k, scale)
  {
    entry := ScoreOne(group[k], min, max - min, scale);
  }

  method Extremes(group: seq<Rating>) returns (min: u64, max: u64)
    requires group != []
    ensures min == Lowest(group) && max == Highest(group) && min <= max
  {
    min, max := group[0].score, group[0].score;
    for i := 1 to |group|
      invariant min == Lowest(group[..i]) && max == Highest(group[..i])
    {
      assert group[..i + 1][..i] == group[..i];
      if group[i].score < min { min := group[i].score; }
      if group[i].score > max { max := group[i].score; }
    }
    assert group[..|group|] == group;
  }

  method ScoreOne(rating: Rating, low: u64, range: u64, scale: u64) returns (entry: NormalizedRating)
    requires scale > 0 && low <= rating.score && rating.score - low <= range && NumeratorsFit(range, scale)
    ensures entry == NormalizedRatingOf(rating, low, range, scale)
  {
    var score := NormalizeScore(rating.score - low, scale, range);
    entry := NormalizedRating(rating.rater, rating.recipient, rating.score, score);
  }

  method NormalizeScore(delta: u64, scale: u64, range: u64) returns (score: u64)
    requires scale > 0 && delta <= range && Fits128(delta, scale)
    ensures score == NormalizedScore(delta, scale, range) && score <= scale
  {
    NormalizedOrder(delta, range, scale, range);
    if (delta + scale) * scale >= U128 { assert false; }
    score := ((delta + scale) * scale) / (range + scale);
  }

  /** The numerator for this distance fits 128 bits. */
  ghost predicate Fits128(delta: int, scale: nat) {
    (delta + scale) * scale < U128
  }

  ghost predicate NumeratorsFit(range: int, scale: nat) {
    forall delta: int :: 0 <= delta <= range ==> Fits128(delta, scale)
  }

  /** Past the check no numerator overflows. */
  lemma NumeratorFits(delta: nat, range: nat, scale: nat)
    requires delta <= range && scale > 0 && range + scale <= (U128 - 1) / scale
    ensures (delta + scale) * scale < U128
  {
    Products(delta + scale, scale, range + scale);
    QuotientIs(U128 - 1, scale, range + scale);
  }

  // ---- the matrix ----

  function RecipientOf(): Rating -> Bytes {
    (r: Rating) => r.recipient
  }

  function NormalizedGroups(groups: seq<seq<Rating>>, scale: u64): seq<NormalizedRating>
    requires scale > 0 && NoneEmpty(groups)
  {
    if groups == [] then []
    else NormalizedGroups(groups[..|groups| - 1], scale) + NormalizedGroup(groups[|groups| - 1], scale)
  }

  ghost predicate AnyGroupOverflows(groups: seq<seq<Rating>>, scale: u64)
    requires scale > 0 && NoneEmpty(groups)
  {
    groups != [] && (GroupOverflows(groups[|groups| - 1], scale) || AnyGroupOverflows(groups[..|groups| - 1], scale))
  }

  lemma {:induction false} PrefixGroupOverflows(prefix: seq<seq<Rating>>, groups: seq<seq<Rating>>, scale: u64)
    requires scale > 0 && NoneEmpty(groups) && prefix <= groups && NoneEmpty(prefix) && AnyGroupOverflows(prefix, scale)
    ensures AnyGroupOverflows(groups, scale)
  {
    if |prefix| == |groups| {
      assert prefix == groups;
    } else {
      PrefixGroupOverflows(prefix, groups[..|groups| - 1], scale);
    }
  }

  lemma OneMoreGroup(groups: seq<seq<Rating>>, scale: u64, g: int)
    requires scale > 0 && NoneEmpty(groups) && 0 <= g < |groups|
    ensures NormalizedGroups(groups[..g + 1], scale) ==
      NormalizedGroups(groups[..g], scale) + NormalizedGroup(groups[g], scale)
    ensures AnyGroupOverflows(groups[..g + 1], scale) <==>
      GroupOverflows(groups[g], scale) || AnyGroupOverflows(groups[..g], scale)
  {
    assert groups[..g + 1][..g] == groups[..g];
  }

  method NormalizeRatingMatrix(ratings: seq<Rating>, scale: u64)
    returns (r: Result<seq<NormalizedRating>, NormalizationError>)
    ensures r == Err(InvalidNormalizationScale) <==> scale == 0
    ensures scale > 0 ==> (r.Err? <==> AnyGroupOverflows(Chunks(RecipientOf(), ratings), scale))
    ensures r.Ok? ==> r.value == NormalizedGroups(Chunks(RecipientOf(), ratings), scale)
  {
    if scale == 0 { return Err(InvalidNormalizationScale); }
    var groups := Chunks(RecipientOf(), ratings);
    var normalized: seq<NormalizedRating> := [];
    for g := 0 to |groups|
      invariant !AnyGroupOverflows(groups[..g], scale)
      invariant normalized == NormalizedGroups(groups[..g], scale)
    {
      var next := NormalizeRecipientGroup(groups[g], scale, normalized);
      OneMoreGroup(groups, scale, g);
      if next.Err? {
        PrefixGroupOverflows(groups[..g + 1], groups, scale);
        return Err(next.error);
      }
      normalized := next.value;
    }
    assert groups[..|groups|] == groups;
    r := Ok(normalized);
  }

  /** Normalized ratings are the ratings in order, under the same rater and recipient, none above the scale. */
  lemma {:induction false} NormalizedMatrix(groups: seq<seq<Rating>>, scale: u64)
    requires scale > 0 && NoneEmpty(groups)
    ensures Follows(NormalizedGroups(groups, scale), Concat(groups), scale)
  {
    if groups != [] {
      var front, last := groups[..|groups| - 1], groups[|groups| - 1];
      NormalizedMatrix(front, scale);
      ConcatSnoc(front, last);
      assert groups == front + [last];
      FollowsConcat(NormalizedGroups(front, scale), Concat(front), NormalizedGroup(last, scale), last, scale);
    }
  }

  lemma {:induction false} ConcatSnoc<T>(chunks: seq<seq<T>>, last: seq<T>)
    ensures Concat(chunks + [last]) == Concat(chunks) + last
  {
    if chunks == [] {
      assert [last][1..] == [];
    } else {
      ConcatSnoc(chunks[1..], last);
      assert (chunks + [last])[1..] == chunks[1..] + [last];
    }
  }
}
