/** Canonical rating payloads and rating batches: crates/cordial-por/src/ratings.rs. */
module Ratings {
  import opened Basics
  import opened ByteOrder
  import opened Por
  import opened ReputationBlocks
  import opened Sorting
  import opened Wire

  const DOMAIN_1: Bytes := Ascii("cordial-por:rating:v1")
  const DOMAIN_2: Bytes := Ascii("cordial-por:rating:v2")

  datatype RatingError =
    | InvalidRatingRound | InvalidRatingSourceCheckpoint | SelfRating | RatingBelowMinimum | RatingAboveMaximum
    | MissingRatingSignature | DuplicateRating

  // ---- payloads ----

  function InteractionBytes(interaction: Option<Bytes>): Bytes {
    match interaction
    case None => PutFlag(false)
    case Some(reference) => PutFlag(true) + PutBytes(reference)
  }

  /** The fields both versions share, after their own source fields. */
  function SignedFields(r: Rating): Bytes {
    PutBytes(r.rater) + (PutBytes(r.recipient) + (PutU64(r.score) + InteractionBytes(r.interaction)))
  }

  function Payload1(r: Rating): Bytes {
    DOMAIN_1 + (PutU64(r.round) + SignedFields(r))
  }

  function Payload2(r: Rating, source: Source): Bytes {
    DOMAIN_2 + (PutU64(source.round) + (PutU64(source.prefixLength) + (source.prefixHash + SignedFields(r))))
  }

  /** Append the shared fields one by one. */
  method AppendSignedFields(start: Bytes, r: Rating) returns (payload: Bytes)
    ensures payload == start + SignedFields(r)
  {
    var rater := start + (PutU64(|r.rater|) + r.rater);
    var recipient := rater + (PutU64(|r.recipient|) + r.recipient);
    var score := recipient + PutU64(r.score);
    match r.interaction {
      case Some(reference) => payload := score + ([1] + (PutU64(|reference|) + reference));
      case None => payload := score + [0];
    }
    Regroup(start, PutBytes(r.rater), PutBytes(r.recipient), PutU64(r.score), InteractionBytes(r.interaction));
  }

  method CanonicalRatingPayload(r: Rating) returns (payload: Bytes)
    ensures payload == Payload1(r)
  {
    payload := AppendSignedFields(DOMAIN_1 + PutU64(r.round), r);
  }

  /** The same fields after the checkpoint they are bound to, which must be valid and of the rating's round. */
  method CanonicalCheckpointRatingPayload(r: Rating, source: Source) returns (payload: Result<Bytes, RatingError>)
    ensures payload.Ok? <==> r.round == source.round && SourceOk(source)
    ensures payload.Ok? ==> payload.value == Payload2(r, source)
    ensures payload == Err(InvalidRatingRound) <==> r.round != source.round
  {
    if r.round != source.round { return Err(InvalidRatingRound); }
    if source.round == 0 || source.round * BLOCKS_PER_CHECKPOINT >= U64 ||
       source.round * BLOCKS_PER_CHECKPOINT != source.prefixLength
    {
      return Err(InvalidRatingSourceCheckpoint);
    }
    var buffer := ((DOMAIN_2 + PutU64(source.round)) + PutU64(source.prefixLength)) + source.prefixHash;
    Regroup(DOMAIN_2, PutU64(source.round), PutU64(source.prefixLength), source.prefixHash, SignedFields(r));
    buffer := AppendSignedFields(buffer, r);
    payload := Ok(buffer);
  }

  lemma Regroup(start: Bytes, a: Bytes, b: Bytes, c: Bytes, d: Bytes)
    ensures start + (a + (b + (c + d))) == (((start + a) + b) + c) + d
  {}

  // ---- injectivity ----

  /** Lengths that a 64-bit machine can hold. */
  predicate Fits(r: Rating) {
    |r.rater| < U64 && |r.recipient| < U64 && |r.signature| < U64 &&
      (r.interaction.Some? ==> |r.interaction.value| < U64)
  }

  function TakeInteraction(b: Bytes): Parsed<Option<Bytes>> {
    var present :- TakeFlag(b);
    if !present.0 then Ok((None, present.1))
    else
      var reference :- TakeBytes(present.1, U64 - 1);
      Ok((Some(reference.0), reference.1))
  }

  lemma InteractionReadsBack(interaction: Option<Bytes>, rest: Bytes)
    requires interaction.Some? ==> |interaction.value| < U64
    ensures TakeInteraction(InteractionBytes(interaction) + rest) == Ok((interaction, rest))
  {
    match interaction {
      case None => FlagReadsBack(false, rest);
      case Some(reference) =>
        assert InteractionBytes(interaction) + rest == PutFlag(true) + (PutBytes(reference) + rest);
        FlagReadsBack(true, PutBytes(reference) + rest);
        BytesReadBack(reference, U64 - 1, rest);
    }
  }

  datatype Signed = Signed(rater: Bytes, recipient: Bytes, score: u64, interaction: Option<Bytes>)

  function SignedPart(r: Rating): Signed {
    Signed(r.rater, r.recipient, r.score, r.interaction)
  }

  function TakeSigned(b: Bytes): Parsed<Signed> {
    var rater :- TakeBytes(b, U64 - 1);
    var recipient :- TakeBytes(rater.1, U64 - 1);
    var score :- TakeU64(recipient.1);
    var interaction :- TakeInteraction(score.1);
    Ok((Signed(rater.0, recipient.0, score.0, interaction.0), interaction.1))
  }

  /** The signed fields read back from any position. */
  lemma SignedReadsBack(r: Rating, rest: Bytes)
    requires Fits(r)
    ensures TakeSigned(SignedFields(r) + rest) == Ok((SignedPart(r), rest))
  {
    var c := InteractionBytes(r.interaction) + rest;
    var b := PutU64(r.score) + c;
    var a := PutBytes(r.recipient) + b;
    assert SignedFields(r) + rest == PutBytes(r.rater) + a;
    BytesReadBack(r.rater, U64 - 1, a);
    BytesReadBack(r.recipient, U64 - 1, b);
    U64ReadsBack(r.score, c);
    InteractionReadsBack(r.interaction, rest);
  }

  /** Every field but the signature. */
  predicate SameSigned(a: Rating, b: Rating) {
    a.round == b.round && SignedPart(a) == SignedPart(b)
  }

  /** Two version 1 payloads agree exactly when all signed fields do. */
  lemma Payload1Injective(a: Rating, b: Rating)
    requires Fits(a) && Fits(b)
    ensures Payload1(a) == Payload1(b) <==> SameSigned(a, b)
  {
    SignedReadsBack(a, []);
    SignedReadsBack(b, []);
    assert SignedFields(a) + [] == SignedFields(a) && SignedFields(b) + [] == SignedFields(b);
    TakeSplits(DOMAIN_1, PutU64(a.round) + SignedFields(a));
    TakeSplits(DOMAIN_1, PutU64(b.round) + SignedFields(b));
    U64ReadsBack(a.round, SignedFields(a));
    U64ReadsBack(b.round, SignedFields(b));
  }

  /** Two version 2 payloads agree exactly when all signed fields and the checkpoint do. */
  lemma Payload2Injective(a: Rating, s: Source, b: Rating, t: Source)
    requires Fits(a) && Fits(b)
    ensures Payload2(a, s) == Payload2(b, t) <==> SignedPart(a) == SignedPart(b) && s == t
  {
    var x, y := SignedFields(a), SignedFields(b);
    SignedReadsBack(a, []);
    SignedReadsBack(b, []);
    assert x + [] == x && y + [] == y;
    TakeSplits(DOMAIN_2, PutU64(s.round) + (PutU64(s.prefixLength) + (s.prefixHash + x)));
    TakeSplits(DOMAIN_2, PutU64(t.round) + (PutU64(t.prefixLength) + (t.prefixHash + y)));
    U64ReadsBack(s.round, PutU64(s.prefixLength) + (s.prefixHash + x));
    U64ReadsBack(t.round, PutU64(t.prefixLength) + (t.prefixHash + y));
    U64ReadsBack(s.prefixLength, s.prefixHash + x);
    U64ReadsBack(t.prefixLength, t.prefixHash + y);
    HashReadsBack(s.prefixHash, x);
    HashReadsBack(t.prefixHash, y);
  }

  /** A version 1 payload is never a version 2 payload. */
  lemma VersionsNeverCoincide(a: Rating, b: Rating, t: Source)
    ensures Payload1(a) != Payload2(b, t)
  {
    assert DOMAIN_1[20] == Code('1') && DOMAIN_2[20] == Code('2');
    assert Payload1(a)[20] == DOMAIN_1[20] && Payload2(b, t)[20] == DOMAIN_2[20];
  }

  // ---- batches ----

  predicate RatingLe(a: Rating, b: Rating) {
    PairLe(a.recipient, a.rater, b.recipient, b.rater)
  }

  predicate SamePair(a: Rating, b: Rating) {
    a.recipient == b.recipient && a.rater == b.rater
  }

  lemma RatingsOrdered()
    ensures TotalPreorder(RatingLe)
  {
    forall a, b ensures RatingLe(a, b) || RatingLe(b, a) { PairTotal(a.recipient, a.rater, b.recipient, b.rater); }
    forall a, b, c | RatingLe(a, b) && RatingLe(b, c) ensures RatingLe(a, c) {
      PairTransitive(a.recipient, a.rater, b.recipient, b.rater, c.recipient, c.rater);
    }
  }

  lemma TiesArePairs(a: Rating, b: Rating)
    ensures RatingLe(a, b) && RatingLe(b, a) <==> SamePair(a, b)
  {
    PairTotal(a.recipient, a.rater, b.recipient, b.rater);
    if RatingLe(a, b) && RatingLe(b, a) { PairAntisymmetric(a.recipient, a.rater, b.recipient, b.rater); }
  }

  datatype Bounds = Bounds(minimum: u64, maximum: u64)

  /** One rating against the configured bounds. */
  function RatingRefusal(r: Rating, bounds: Bounds): Option<RatingError> {
    if r.rater == r.recipient then Some(SelfRating)
    else if r.score < bounds.minimum then Some(RatingBelowMinimum)
    else if r.score > bounds.maximum then Some(RatingAboveMaximum)
    else if r.signature == [] then Some(MissingRatingSignature)
    else None
  }

  predicate RatingOk(r: Rating, round: u64, bounds: Bounds) {
    r.round == round && RatingRefusal(r, bounds).None?
  }

  ghost predicate AllOk(ratings: seq<Rating>, round: u64, bounds: Bounds) {
    forall r :: r in ratings ==> RatingOk(r, round, bounds)
  }

  /** No two ratings at different places have the same recipient and rater. */
  ghost predicate NoRepeats(ratings: seq<Rating>) {
    forall i, j :: 0 <= i < j < |ratings| ==> !SamePair(ratings[i], ratings[j])
  }

  /** In sorted order repeats are neighbours. */
  lemma SortedRepeatsTouch(sorted: seq<Rating>)
    requires Sorted(RatingLe, sorted) && forall k :: 0 < k < |sorted| ==> !SamePair(sorted[k - 1], sorted[k])
    ensures NoRepeats(sorted)
  {
    forall i, j | 0 <= i < j < |sorted| ensures !SamePair(sorted[i], sorted[j]) {
      if SamePair(sorted[i], sorted[j]) {
        assert RatingLe(sorted[i], sorted[i + 1]) && (i + 1 == j || RatingLe(sorted[i + 1], sorted[j]));
        Squeezed(sorted[i], sorted[i + 1], sorted[j]);
      }
    }
  }

  lemma Squeezed(a: Rating, b: Rating, c: Rating)
    requires RatingLe(a, b) && (b == c || RatingLe(b, c)) && SamePair(a, c)
    ensures SamePair(a, b)
  {
    TiesArePairs(a, b);
    TiesArePairs(a, c);
    RatingsOrdered();
  }

  lemma NoRepeatsIsDistinct(ratings: seq<Rating>)
    requires NoRepeats(ratings)
    ensures Distinct(ratings) && NoTies(RatingLe, ratings)
  {
    forall a, b | a in ratings && b in ratings && RatingLe(a, b) && RatingLe(b, a) ensures a == b {
      TiesArePairs(a, b);
    }
  }

  /** Whether ratings repeat does not depend on their order. */
  lemma NoRepeatsPermutes(a: seq<Rating>, b: seq<Rating>)
    requires multiset(a) == multiset(b) && NoRepeats(a)
    ensures NoRepeats(b)
  {
    NoRepeatsIsDistinct(a);
    DistinctFromMultiset(a, b);
    SameElements(a, b);
    forall i, j | 0 <= i < j < |b| ensures !SamePair(b[i], b[j]) {
      assert b[i] in a && b[j] in a && b[i] != b[j];
    }
  }

  ghost predicate Acceptable(ratings: seq<Rating>, round: u64, bounds: Bounds) {
    AllOk(ratings, round, bounds) && NoRepeats(ratings)
  }

  /** Validate each rating, sort by recipient and rater, and refuse neighbours with the same pair. */
  method BuildRatingBatch(round: u64, ratings: seq<Rating>, bounds: Bounds)
    returns (r: Result<seq<Rating>, RatingError>)
    ensures r.Ok? <==> Acceptable(ratings, round, bounds)
    ensures r.Ok? ==> r.value == Sort(RatingLe, ratings)
    ensures r == Err(DuplicateRating) ==> AllOk(ratings, round, bounds) && !NoRepeats(ratings)
  {
    var refusal := FirstRefusal(round, ratings, bounds);
    if refusal.Some? { return Err(refusal.value); }
    var sorted := Sort(RatingLe, ratings);
    RatingsOrdered();
    SortSorted(RatingLe, ratings);
    SortKeeps(RatingLe, ratings);
    var repeated := NeighboursRepeat(sorted);
    if NoRepeats(ratings) { NoRepeatsPermutes(ratings, sorted); }
    if repeated { return Err(DuplicateRating); }
    NoRepeatsPermutes(sorted, ratings);
    r := Ok(sorted);
  }

  /** The first check that some rating fails, in order of arrival. */
  method FirstRefusal(round: u64, ratings: seq<Rating>, bounds: Bounds) returns (r: Option<RatingError>)
    ensures r == None <==> AllOk(ratings, round, bounds)
    ensures r != Some(DuplicateRating)
  {
    for i := 0 to |ratings|
      invariant AllOk(ratings[..i], round, bounds)
    {
      var rating := ratings[i];
      assert rating in ratings && ratings[..i + 1] == ratings[..i] + [rating];
      if rating.round != round { return Some(InvalidRatingRound); }
      var refusal := RatingRefusal(rating, bounds);
      if refusal.Some? { return refusal; }
    }
    assert ratings[..|ratings|] == ratings;
    r := None;
  }

  method NeighboursRepeat(sorted: seq<Rating>) returns (repeated: bool)
    requires Sorted(RatingLe, sorted)
    ensures repeated <==> !NoRepeats(sorted)
  {
    for k := 1 to if sorted == [] then 1 else |sorted|
      invariant forall j :: 0 < j < k && j < |sorted| ==> !SamePair(sorted[j - 1], sorted[j])
    {
      if SamePair(sorted[k - 1], sorted[k]) { return true; }
    }
    SortedRepeatsTouch(sorted);
    repeated := false;
  }

  /** Arrival order decides neither acceptance nor the batch. */
  lemma ArrivalOrderDoesNotMatter(a: seq<Rating>, b: seq<Rating>, round: u64, bounds: Bounds)
    requires multiset(a) == multiset(b)
    ensures Acceptable(a, round, bounds) <==> Acceptable(b, round, bounds)
    ensures Acceptable(a, round, bounds) ==> Sort(RatingLe, a) == Sort(RatingLe, b)
  {
    SameElements(a, b);
    if NoRepeats(a) { NoRepeatsPermutes(a, b); }
    if NoRepeats(b) { NoRepeatsPermutes(b, a); }
    if NoRepeats(a) {
      RatingsOrdered();
      SortSorted(RatingLe, a);
      SortSorted(RatingLe, b);
      SortKeeps(RatingLe, a);
      SortKeeps(RatingLe, b);
      NoRepeatsIsDistinct(a);
      SortedUnique(RatingLe, Sort(RatingLe, a), Sort(RatingLe, b));
    }
  }
}
