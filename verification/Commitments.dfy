/** The preimages of batch, penalty and list commitments: crates/cordial-por/src/commitments.rs. */
module Commitments {
  import opened Basics
  import opened ByteOrder
  import opened Por
  import opened Ratings
  import opened ReputationBlocks
  import opened Sorting
  import opened Wire

  const BATCH_DOMAIN_1: Bytes := Ascii("cordial-por:rating-batch-commitment:v1")
  const BATCH_DOMAIN_2: Bytes := Ascii("cordial-por:rating-batch-commitment:v2")
  const PENALTY_DOMAIN: Bytes := Ascii("cordial-por:penalty-events-commitment:v1")
  const MAX_EVENTS := 1_000_000
  const MAX_OFFENDER := 4 * 1024
  const MAX_EVIDENCE := 64 * 1024
  const MAX_PENALTY_WIRE := 64 * 1024 * 1024

  // ---- rating batches ----

  /** Every rating of a batch, as its signed payload and its signature. */
  function SignedRatings(payload: Rating -> Bytes, ratings: seq<Rating>): Bytes {
    if ratings == [] then []
    else PutBytes(payload(ratings[0])) + (PutBytes(ratings[0].signature) + SignedRatings(payload, ratings[1..]))
  }

  function WavePayload(): Rating -> Bytes {
    (r: Rating) => Payload1(r)
  }

  function CheckpointPayload(source: Source): Rating -> Bytes {
    (r: Rating) => Payload2(r, source)
  }

  function BatchPreimage1(round: u64, ratings: seq<Rating>): Bytes {
    BATCH_DOMAIN_1 + (PutU64(round) + (PutU64(|ratings|) + SignedRatings(WavePayload(), ratings)))
  }

  function BatchPreimage2(round: u64, source: Source, ratings: seq<Rating>): Bytes {
    BATCH_DOMAIN_2 + (PutU64(round) + (PutU64(source.prefixLength) + (source.prefixHash
      + (PutU64(|ratings|) + SignedRatings(CheckpointPayload(source), ratings)))))
  }

  /** Rebuild the canonical batch and lay it out. */
  method RatingBatchPreimage(round: u64, ratings: seq<Rating>, bounds: Bounds) returns (r: Result<Bytes, RatingError>)
    ensures r.Ok? <==> Acceptable(ratings, round, bounds)
    ensures r.Ok? ==> r.value == BatchPreimage1(round, Sort(RatingLe, ratings))
  {
    var canonical :- BuildRatingBatch(round, ratings, bounds);
    var payload := (BATCH_DOMAIN_1 + PutU64(round)) + PutU64(|canonical|);
    var signed := AppendRatings(payload, canonical);
    Regrouped(BATCH_DOMAIN_1, PutU64(round), PutU64(|canonical|), SignedRatings(WavePayload(), canonical));
    r := Ok(signed);
  }

  method AppendRatings(start: Bytes, ratings: seq<Rating>) returns (payload: Bytes)
    ensures payload == start + SignedRatings(WavePayload(), ratings)
  {
    payload := start;
    assert ratings[0..] == ratings;
    for i := 0 to |ratings|
      invariant payload + SignedRatings(WavePayload(), ratings[i..]) == start + SignedRatings(WavePayload(), ratings)
    {
      var signed := CanonicalRatingPayload(ratings[i]);
      SignedStep(WavePayload(), payload, ratings, i);
      payload := payload + PutBytes(signed) + PutBytes(ratings[i].signature);
    }
    assert ratings[|ratings|..] == [] && payload + [] == payload;
  }

  lemma Shift(payload: Bytes, a: Bytes, b: Bytes, rest: Bytes)
    ensures payload + (a + (b + rest)) == ((payload + a) + b) + rest
  {}

  /** The same, bound to a checkpoint of the batch's round. */
  method CheckpointRatingBatchPreimage(round: u64, source: Source, ratings: seq<Rating>, bounds: Bounds)
    returns (r: Result<Bytes, RatingError>)
    ensures r.Ok? <==> Acceptable(ratings, round, bounds) && round == source.round && SourceOk(source)
    ensures r.Ok? ==> r.value == BatchPreimage2(round, source, Sort(RatingLe, ratings))
  {
    var canonical :- BuildRatingBatch(round, ratings, bounds);
    if round != source.round { return Err(InvalidRatingRound); }
    if !SourceOk(source) { return Err(InvalidRatingSourceCheckpoint); }
    var payload := BATCH_DOMAIN_2 + PutU64(round) + PutU64(source.prefixLength) + source.prefixHash +
      PutU64(|canonical|);
    SortKeeps(RatingLe, ratings);
    forall k | 0 <= k < |canonical| ensures canonical[k].round == round { assert canonical[k] in ratings; }
    var signed := AppendCheckpointRatings(payload, canonical, source);
    Nested(BATCH_DOMAIN_2, PutU64(round), PutU64(source.prefixLength), source.prefixHash,
           PutU64(|canonical|), SignedRatings(CheckpointPayload(source), canonical));
    r := Ok(signed);
  }

  lemma Nested(a: Bytes, b: Bytes, c: Bytes, d: Bytes, e: Bytes, rest: Bytes)
    ensures ((((a + b) + c) + d) + e) + rest == a + (b + (c + (d + (e + rest))))
  {
    Regrouped(a + b + c, d, e, rest);
    Regrouped(a, b, c, d + (e + rest));
  }

  method AppendCheckpointRatings(start: Bytes, ratings: seq<Rating>, source: Source) returns (payload: Bytes)
    requires SourceOk(source) && forall k :: 0 <= k < |ratings| ==> ratings[k].round == source.round
    ensures payload == start + SignedRatings(CheckpointPayload(source), ratings)
  {
    payload := start;
    assert ratings[0..] == ratings;
    for i := 0 to |ratings|
      invariant payload + SignedRatings(CheckpointPayload(source), ratings[i..]) ==
        start + SignedRatings(CheckpointPayload(source), ratings)
    {
      var signed := CanonicalCheckpointRatingPayload(ratings[i], source);
      if signed.Err? { assert false; }
      SignedStep(CheckpointPayload(source), payload, ratings, i);
      payload := payload + PutBytes(signed.value) + PutBytes(ratings[i].signature);
    }
    assert ratings[|ratings|..] == [] && payload + [] == payload;
  }

  lemma SignedStep(encode: Rating -> Bytes, payload: Bytes, ratings: seq<Rating>, i: int)
    requires 0 <= i < |ratings|
    ensures payload + SignedRatings(encode, ratings[i..]) ==
      ((payload + PutBytes(encode(ratings[i]))) + PutBytes(ratings[i].signature)) +
        SignedRatings(encode, ratings[i + 1..])
  {
    assert ratings[i..][1..] == ratings[i + 1..];
    Shift(payload, PutBytes(encode(ratings[i])), PutBytes(ratings[i].signature),
      SignedRatings(encode, ratings[i + 1..]));
  }

  /** Lengths that a 64-bit machine can hold. */
  ghost predicate AllFit(ratings: seq<Rating>) {
    |ratings| < U64 && forall k :: 0 <= k < |ratings| ==> Fits(ratings[k]) && |SignedFields(ratings[k])| + 128 < U64
  }

  /** Payloads that determine everything but the signature. */
  ghost predicate Determines(payload: Rating -> Bytes) {
    forall a, b :: Fits(a) && Fits(b) && payload(a) == payload(b) ==> SignedPart(a) == SignedPart(b)
  }

  lemma {:induction false} SignedRatingsInjective(payload: Rating -> Bytes, a: seq<Rating>, b: seq<Rating>, round: u64)
    requires Determines(payload) && |a| == |b| && SignedRatings(payload, a) == SignedRatings(payload, b)
    requires forall k :: 0 <= k < |a| ==> Fits(a[k]) && |payload(a[k])| < U64 && a[k].round == round
    requires forall k :: 0 <= k < |b| ==> Fits(b[k]) && |payload(b[k])| < U64 && b[k].round == round
    ensures a == b
  {
    if a != [] {
      var x, y := SignedRatings(payload, a[1..]), SignedRatings(payload, b[1..]);
      PeelBytes(payload(a[0]), PutBytes(a[0].signature) + x, payload(b[0]), PutBytes(b[0].signature) + y);
      PeelBytes(a[0].signature, x, b[0].signature, y);
      SignedRatingsInjective(payload, a[1..], b[1..], round);
      assert a == [a[0]] + a[1..] && b == [b[0]] + b[1..];
    }
  }

  lemma PayloadSizes(r: Rating, source: Source)
    ensures |Payload1(r)| == 29 + |SignedFields(r)| && |Payload2(r, source)| == 69 + |SignedFields(r)|
  {}

  /**
   * Accepted batches of the same round have the same preimage exactly when they hold the same ratings, in any order.
   */
  lemma {:induction false} BatchPreimageMeansRatings(round: u64, a: seq<Rating>, b: seq<Rating>, bounds: Bounds)
    requires Acceptable(a, round, bounds) && Acceptable(b, round, bounds) && AllFit(a) && AllFit(b)
    ensures BatchPreimage1(round, Sort(RatingLe, a)) == BatchPreimage1(round, Sort(RatingLe, b)) <==>
      multiset(a) == multiset(b)
  {
    var s, t := Sort(RatingLe, a), Sort(RatingLe, b);
    SortKeeps(RatingLe, a);
    SortKeeps(RatingLe, b);
    if multiset(a) == multiset(b) {
      ArrivalOrderDoesNotMatter(a, b, round, bounds);
    }
    if BatchPreimage1(round, s) == BatchPreimage1(round, t) {
      var x, y := SignedRatings(WavePayload(), s), SignedRatings(WavePayload(), t);
      PeelFixed(BATCH_DOMAIN_1, PutU64(round) + (PutU64(|s|) + x), BATCH_DOMAIN_1, PutU64(round) + (PutU64(|t|) + y));
      PeelU64(round, PutU64(|s|) + x, round, PutU64(|t|) + y);
      PeelU64(|s|, x, |t|, y);
      WaveDetermines();
      SortedFit(a, round, bounds, Source(0, 0, seq(32, _ => 0)));
      SortedFit(b, round, bounds, Source(0, 0, seq(32, _ => 0)));
      SignedRatingsInjective(WavePayload(), s, t, round);
    }
  }

  lemma WaveDetermines()
    ensures Determines(WavePayload())
  {
    forall a, b | Fits(a) && Fits(b) && WavePayload()(a) == WavePayload()(b) ensures SignedPart(a) == SignedPart(b) {
      Payload1Injective(a, b);
    }
  }

  lemma CheckpointDetermines(source: Source)
    ensures Determines(CheckpointPayload(source))
  {
    var payload := CheckpointPayload(source);
    forall a, b | Fits(a) && Fits(b) && payload(a) == payload(b) ensures SignedPart(a) == SignedPart(b) {
      Payload2Injective(a, source, b, source);
    }
  }

  lemma SortedFit(ratings: seq<Rating>, round: u64, bounds: Bounds, source: Source)
    requires AllOk(ratings, round, bounds) && AllFit(ratings)
    ensures var s := Sort(RatingLe, ratings);
      && (forall k :: 0 <= k < |s| ==> Fits(s[k]) && |WavePayload()(s[k])| < U64 && s[k].round == round)
      && (forall k :: 0 <= k < |s| ==> |CheckpointPayload(source)(s[k])| < U64)
  {
    var s := Sort(RatingLe, ratings);
    SortKeeps(RatingLe, ratings);
    forall k | 0 <= k < |s|
      ensures Fits(s[k]) && |WavePayload()(s[k])| < U64 && s[k].round == round
      ensures |CheckpointPayload(source)(s[k])| < U64
    {
      assert s[k] in ratings;
      var j :| 0 <= j < |ratings| && ratings[j] == s[k];
      PayloadSizes(s[k], source);
    }
  }

  /** So it is for two checkpoint-bound batches, which must also be bound to the same checkpoint. */
  lemma {:induction false} CheckpointBatchPreimageMeansRatings(s: Source, a: seq<Rating>, t: Source, b: seq<Rating>,
                                                              bounds: Bounds)
    requires Acceptable(a, s.round, bounds) && Acceptable(b, t.round, bounds) && AllFit(a) && AllFit(b)
    ensures BatchPreimage2(s.round, s, Sort(RatingLe, a)) == BatchPreimage2(t.round, t, Sort(RatingLe, b)) <==>
      s == t && multiset(a) == multiset(b)
  {
    var x, y := Sort(RatingLe, a), Sort(RatingLe, b);
    SortKeeps(RatingLe, a);
    SortKeeps(RatingLe, b);
    if s == t && multiset(a) == multiset(b) {
      ArrivalOrderDoesNotMatter(a, b, s.round, bounds);
    }
    if BatchPreimage2(s.round, s, x) == BatchPreimage2(t.round, t, y) {
      PeelCheckpoint(s, x, t, y);
      CheckpointDetermines(s);
      SortedFit(a, s.round, bounds, s);
      SortedFit(b, s.round, bounds, s);
      SignedRatingsInjective(CheckpointPayload(s), x, y, s.round);
    }
  }

  lemma PeelCheckpoint(s: Source, x: seq<Rating>, t: Source, y: seq<Rating>)
    requires BatchPreimage2(s.round, s, x) == BatchPreimage2(t.round, t, y) && |x| < U64 && |y| < U64
    ensures s == t && |x| == |y|
    ensures SignedRatings(CheckpointPayload(s), x) == SignedRatings(CheckpointPayload(t), y)
  {
    var p := PutU64(|x|) + SignedRatings(CheckpointPayload(s), x);
    var r := PutU64(|y|) + SignedRatings(CheckpointPayload(t), y);
    var p1, r1 := s.prefixHash + p, t.prefixHash + r;
    var p2, r2 := PutU64(s.prefixLength) + p1, PutU64(t.prefixLength) + r1;
    PeelFixed(BATCH_DOMAIN_2, PutU64(s.round) + p2, BATCH_DOMAIN_2, PutU64(t.round) + r2);
    PeelU64(s.round, p2, t.round, r2);
    PeelU64(s.prefixLength, p1, t.prefixLength, r1);
    PeelFixed(s.prefixHash, p, t.prefixHash, r);
    PeelU64(|x|, SignedRatings(CheckpointPayload(s), x), |y|, SignedRatings(CheckpointPayload(t), y));
  }

  /** The two kinds of batch never share a preimage. */
  lemma BatchVersionsNeverCoincide(round: u64, a: seq<Rating>, source: Source, b: seq<Rating>)
    ensures BatchPreimage1(round, a) != BatchPreimage2(source.round, source, b)
  {
    assert BATCH_DOMAIN_1[37] == Code('1') && BATCH_DOMAIN_2[37] == Code('2');
    assert BatchPreimage1(round, a)[37] == BATCH_DOMAIN_1[37];
    assert BatchPreimage2(source.round, source, b)[37] == BATCH_DOMAIN_2[37];
  }

  // ---- reputation lists ----

  /** Lengths that a 64-bit machine can hold. */
  ghost predicate ListFits(list: ReputationList) {
    |list.entries| < U64 && forall k :: 0 <= k < |list.entries| ==> |list.entries[k].nodeId| < U64
  }

  /** The reputation root is the hash of a preimage that determines the list. */
  lemma ListPreimageInjective(a: ReputationList, b: ReputationList)
    requires ListFits(a) && ListFits(b)
    ensures ListPreimage(a) == ListPreimage(b) <==> a == b
  {
    if ListPreimage(a) == ListPreimage(b) {
      var x, y := EntriesBytes(a.entries), EntriesBytes(b.entries);
      PeelFixed(LIST_DOMAIN, PutU64(a.round) + (PutU64(|a.entries|) + x),
                LIST_DOMAIN, PutU64(b.round) + (PutU64(|b.entries|) + y));
      PeelU64(a.round, PutU64(|a.entries|) + x, b.round, PutU64(|b.entries|) + y);
      PeelU64(|a.entries|, x, |b.entries|, y);
      PeelEntries(a.entries, b.entries);
    }
  }

  lemma {:induction false} PeelEntries(a: seq<Entry>, b: seq<Entry>)
    requires |a| == |b| && EntriesBytes(a) == EntriesBytes(b)
    requires forall k :: 0 <= k < |a| ==> |a[k].nodeId| < U64 && |b[k].nodeId| < U64
    ensures a == b
  {
    if a != [] {
      var x, y := EntriesBytes(a[1..]), EntriesBytes(b[1..]);
      PeelEntry(a[0], x, b[0], y);
      PeelEntries(a[1..], b[1..]);
      assert a == [a[0]] + a[1..] && b == [b[0]] + b[1..];
    }
  }

  lemma PeelEntry(a: Entry, x: Bytes, b: Entry, y: Bytes)
    requires |a.nodeId| < U64 && |b.nodeId| < U64 && EntryBytes(a) + x == EntryBytes(b) + y
    ensures a == b && x == y
  {
    EntryFields(a, x);
    EntryFields(b, y);
    var p, r := PutU64(a.retained) + x, PutU64(b.retained) + y;
    var p1, r1 := PutFlag(a.excluded) + p, PutFlag(b.excluded) + r;
    var p2, r2 := PutU64(a.reputation) + p1, PutU64(b.reputation) + r1;
    PeelBytes(a.nodeId, p2, b.nodeId, r2);
    PeelU64(a.reputation, p1, b.reputation, r1);
    PeelFixed(PutFlag(a.excluded), p, PutFlag(b.excluded), r);
    PeelU64(a.retained, x, b.retained, y);
  }

  lemma EntryFields(e: Entry, rest: Bytes)
    ensures EntryBytes(e) + rest ==
      PutBytes(e.nodeId) + (PutU64(e.reputation) + (PutFlag(e.excluded) + (PutU64(e.retained) + rest)))
  {
    Regrouped(PutBytes(e.nodeId), PutU64(e.reputation), PutFlag(e.excluded) + PutU64(e.retained), rest);
    Regrouped(PutBytes(e.nodeId) + PutU64(e.reputation), PutFlag(e.excluded), PutU64(e.retained), rest);
  }

  // ---- penalties ----

  datatype Equivocation = Equivocation(offender: Bytes, evidence: Bytes)
  datatype Inactivity = Inactivity(offender: Bytes, missed: u64)
  datatype PenaltyEvents = PenaltyEvents(round: u64, equivocations: seq<Equivocation>, inactivity: seq<Inactivity>)
  datatype PenaltyError = InvalidPenaltyEvents | NotAuthorized

  /** Whether an equivocation event carries a valid authorization for the round. */
  type Authorization = (Equivocation, u64) -> bool

  predicate EquivocationLe(a: Equivocation, b: Equivocation) { BytesLe(a.offender, b.offender) }
  predicate InactivityLe(a: Inactivity, b: Inactivity) { BytesLe(a.offender, b.offender) }

  function EquivocationBytes(events: seq<Equivocation>): Bytes {
    if events == [] then []
    else PutBytes(events[0].offender) + (PutBytes(events[0].evidence) + EquivocationBytes(events[1..]))
  }

  function InactivityBytes(events: seq<Inactivity>): Bytes {
    if events == [] then []
    else PutBytes(events[0].offender) + (PutU64(events[0].missed) + InactivityBytes(events[1..]))
  }

  function PenaltyPreimage(round: u64, equivocations: seq<Equivocation>, inactivity: seq<Inactivity>): Bytes {
    PENALTY_DOMAIN + (PutU64(round) + (PutU64(|equivocations|) + (EquivocationBytes(equivocations)
      + (PutU64(|inactivity|) + InactivityBytes(inactivity)))))
  }

  ghost predicate EquivocationOk(e: Equivocation, round: u64, authorized: Authorization) {
    authorized(e, round) && |e.offender| <= MAX_OFFENDER && 0 < |e.evidence| <= MAX_EVIDENCE
  }

  ghost predicate InactivityOk(e: Inactivity) {
    |e.offender| <= MAX_OFFENDER && e.missed == 1
  }

  ghost predicate DistinctOffenders(equivocations: seq<Equivocation>, inactivity: seq<Inactivity>) {
    && (forall i, j :: 0 <= i < j < |equivocations| ==> equivocations[i].offender != equivocations[j].offender)
    && (forall i, j :: 0 <= i < j < |inactivity| ==> inactivity[i].offender != inactivity[j].offender)
    && (forall a, b :: a in equivocations && b in inactivity ==> a.offender != b.offender)
  }

  /** What a set of events must satisfy, apart from the size of its preimage. */
  ghost predicate EventsOk(round: u64, e: seq<Equivocation>, i: seq<Inactivity>, authorized: Authorization) {
    && |e| + |i| <= MAX_EVENTS
    && (forall a :: a in e ==> EquivocationOk(a, round, authorized))
    && (forall b :: b in i ==> InactivityOk(b))
    && DistinctOffenders(e, i)
  }

  lemma OffendersOrdered()
    ensures TotalPreorder(EquivocationLe) && TotalPreorder(InactivityLe)
  {
    forall a, b ensures EquivocationLe(a, b) || EquivocationLe(b, a) { BytesTotal(a.offender, b.offender); }
    forall a, b ensures InactivityLe(a, b) || InactivityLe(b, a) { BytesTotal(a.offender, b.offender); }
    forall a, b, c | EquivocationLe(a, b) && EquivocationLe(b, c) ensures EquivocationLe(a, c) {
      BytesTransitive(a.offender, b.offender, c.offender);
    }
    forall a, b, c | InactivityLe(a, b) && InactivityLe(b, c) ensures InactivityLe(a, c) {
      BytesTransitive(a.offender, b.offender, c.offender);
    }
  }

  lemma OffendersPermute(e: seq<Equivocation>, i: seq<Inactivity>, e': seq<Equivocation>, i': seq<Inactivity>)
    requires multiset(e) == multiset(e') && multiset(i) == multiset(i') && DistinctOffenders(e, i)
    ensures DistinctOffenders(e', i')
  {
    SameElements(e, e');
    SameElements(i, i');
    DistinctFromMultiset(e, e');
    DistinctFromMultiset(i, i');
    forall a, b | 0 <= a < b < |e'| ensures e'[a].offender != e'[b].offender {
      assert e'[a] in e && e'[b] in e && e'[a] != e'[b];
    }
    forall a, b | 0 <= a < b < |i'| ensures i'[a].offender != i'[b].offender {
      assert i'[a] in i && i'[b] in i && i'[a] != i'[b];
    }
  }

  lemma EventsPermute(round: u64, e: seq<Equivocation>, i: seq<Inactivity>, e': seq<Equivocation>,
                      i': seq<Inactivity>, authorized: Authorization)
    requires multiset(e) == multiset(e') && multiset(i) == multiset(i')
    ensures EventsOk(round, e, i, authorized) <==> EventsOk(round, e', i', authorized)
  {
    SameElements(e, e');
    SameElements(i, i');
    if DistinctOffenders(e, i) { OffendersPermute(e, i, e', i'); }
    if DistinctOffenders(e', i') { OffendersPermute(e', i', e, i); }
  }

  /** Arrival order changes neither the checks nor the sorted events. */
  lemma {:induction false} PenaltyOrderDoesNotMatter(round: u64, e: seq<Equivocation>, i: seq<Inactivity>,
                                                     e': seq<Equivocation>, i': seq<Inactivity>,
                                                     authorized: Authorization)
    requires multiset(e) == multiset(e') && multiset(i) == multiset(i')
    ensures EventsOk(round, e, i, authorized) <==> EventsOk(round, e', i', authorized)
    ensures DistinctOffenders(e, i) ==>
      Sort(EquivocationLe, e) == Sort(EquivocationLe, e') && Sort(InactivityLe, i) == Sort(InactivityLe, i')
  {
    EventsPermute(round, e, i, e', i', authorized);
    if DistinctOffenders(e, i) {
      OffendersOrdered();
      SortSorted(EquivocationLe, e);
      SortSorted(EquivocationLe, e');
      SortSorted(InactivityLe, i);
      SortSorted(InactivityLe, i');
      SortKeeps(EquivocationLe, e);
      SortKeeps(EquivocationLe, e');
      SortKeeps(InactivityLe, i);
      SortKeeps(InactivityLe, i');
      OffendersNeverTie(Sort(EquivocationLe, e), e, Sort(InactivityLe, i), i);
      SortedUnique(EquivocationLe, Sort(EquivocationLe, e), Sort(EquivocationLe, e'));
      SortedUnique(InactivityLe, Sort(InactivityLe, i), Sort(InactivityLe, i'));
    }
  }

  lemma OffendersNeverTie(s: seq<Equivocation>, e: seq<Equivocation>, t: seq<Inactivity>, i: seq<Inactivity>)
    requires DistinctOffenders(e, i) && (forall a :: a in s <==> a in e) && (forall b :: b in t <==> b in i)
    ensures NoTies(EquivocationLe, s) && NoTies(InactivityLe, t)
  {
    forall a, b | a in s && b in s && EquivocationLe(a, b) && EquivocationLe(b, a) ensures a == b {
      BytesAntisymmetric(a.offender, b.offender);
      assert a in e && b in e;
    }
    forall a, b | a in t && b in t && InactivityLe(a, b) && InactivityLe(b, a) ensures a == b {
      BytesAntisymmetric(a.offender, b.offender);
      assert a in i && b in i;
    }
  }

  // ---- building the penalty preimage ----

  ghost predicate EquivocationsOk(e: seq<Equivocation>, round: u64, authorized: Authorization) {
    && (forall a :: a in e ==> EquivocationOk(a, round, authorized))
    && (forall i, j :: 0 <= i < j < |e| ==> e[i].offender != e[j].offender)
  }

  ghost predicate InactivitiesOk(events: seq<Inactivity>, taken: set<Bytes>) {
    && (forall b :: b in events ==> InactivityOk(b) && b.offender !in taken)
    && (forall i, j :: 0 <= i < j < |events| ==> events[i].offender != events[j].offender)
  }

  function EquivocationOffenders(e: seq<Equivocation>): set<Bytes> {
    set a | a in e :: a.offender
  }

  function InactivityOffenders(i: seq<Inactivity>): set<Bytes> {
    set b | b in i :: b.offender
  }

  lemma EquivocationsSnoc(events: seq<Equivocation>, k: int, round: u64, authorized: Authorization)
    requires 0 <= k < |events| && EquivocationsOk(events[..k], round, authorized)
    requires EquivocationOk(events[k], round, authorized) && events[k].offender !in EquivocationOffenders(events[..k])
    ensures EquivocationsOk(events[..k + 1], round, authorized)
    ensures EquivocationOffenders(events[..k + 1]) == EquivocationOffenders(events[..k]) + {events[k].offender}
  {
    var front, longer := events[..k], events[..k + 1];
    assert longer == front + [events[k]];
    forall i, j | 0 <= i < j < |longer| ensures longer[i].offender != longer[j].offender {
      assert i < k && longer[i] == front[i] && front[i] in front;
    }
  }

  lemma EquivocationRepeats(events: seq<Equivocation>, k: int, round: u64, authorized: Authorization)
    requires 0 <= k < |events|
    requires events[k].offender in EquivocationOffenders(events[..k]) || !EquivocationOk(events[k], round, authorized)
    ensures !EquivocationsOk(events, round, authorized)
  {
    assert events[k] in events;
    if events[k].offender in EquivocationOffenders(events[..k]) {
      var a :| a in events[..k] && a.offender == events[k].offender;
    }
  }

  lemma EquivocationStep(payload: Bytes, events: seq<Equivocation>, k: int)
    requires 0 <= k < |events|
    ensures payload + EquivocationBytes(events[k..]) ==
      ((payload + PutBytes(events[k].offender)) + PutBytes(events[k].evidence)) + EquivocationBytes(events[k + 1..])
  {
    assert events[k..][1..] == events[k + 1..];
    Shift(payload, PutBytes(events[k].offender), PutBytes(events[k].evidence), EquivocationBytes(events[k + 1..]));
  }

  /** Append the equivocations in order, refusing a repeated, oversized or unauthorized one. */
  method AppendEquivocations(start: Bytes, events: seq<Equivocation>, round: u64, authorized: Authorization)
    returns (r: Result<(Bytes, set<Bytes>), PenaltyError>)
    ensures r.Ok? ==> EquivocationsOk(events, round, authorized)
    ensures r.Ok? ==> r.value.0 == start + EquivocationBytes(events) && r.value.1 == EquivocationOffenders(events)
    ensures r.Err? ==>
      !EquivocationsOk(events, round, authorized) || |start + EquivocationBytes(events)| > MAX_PENALTY_WIRE
  {
    var payload, seen := start, {};
    assert events[0..] == events;
    for k := 0 to |events|
      invariant payload + EquivocationBytes(events[k..]) == start + EquivocationBytes(events)
      invariant EquivocationsOk(events[..k], round, authorized) && seen == EquivocationOffenders(events[..k])
    {
      var event := events[k];
      if !authorized(event, round) {
        EquivocationRepeats(events, k, round, authorized);
        return Err(NotAuthorized);
      }
      if event.offender in seen || |event.offender| > MAX_OFFENDER ||
         event.evidence == [] || |event.evidence| > MAX_EVIDENCE
      {
        EquivocationRepeats(events, k, round, authorized);
        return Err(InvalidPenaltyEvents);
      }
      EquivocationsSnoc(events, k, round, authorized);
      EquivocationStep(payload, events, k);
      seen := seen + {event.offender};
      payload := payload + PutBytes(event.offender) + PutBytes(event.evidence);
      if |payload| > MAX_PENALTY_WIRE { return Err(InvalidPenaltyEvents); }
    }
    assert events[|events|..] == [] && payload + [] == payload && events[..|events|] == events;
    r := Ok((payload, seen));
  }

  lemma InactivitiesSnoc(events: seq<Inactivity>, k: int, taken: set<Bytes>)
    requires 0 <= k < |events| && InactivitiesOk(events[..k], taken) && InactivityOk(events[k])
    requires events[k].offender !in taken + InactivityOffenders(events[..k])
    ensures InactivitiesOk(events[..k + 1], taken)
    ensures InactivityOffenders(events[..k + 1]) == InactivityOffenders(events[..k]) + {events[k].offender}
  {
    var front, longer := events[..k], events[..k + 1];
    assert longer == front + [events[k]];
    forall i, j | 0 <= i < j < |longer| ensures longer[i].offender != longer[j].offender {
      assert i < k && longer[i] == front[i] && front[i] in front;
    }
  }

  lemma InactivityRepeats(events: seq<Inactivity>, k: int, taken: set<Bytes>)
    requires 0 <= k < |events|
    requires events[k].offender in taken + InactivityOffenders(events[..k]) || !InactivityOk(events[k])
    ensures !InactivitiesOk(events, taken)
  {
    assert events[k] in events;
    if events[k].offender in InactivityOffenders(events[..k]) {
      var a :| a in events[..k] && a.offender == events[k].offender;
    }
  }

  lemma InactivityStep(payload: Bytes, events: seq<Inactivity>, k: int)
    requires 0 <= k < |events|
    ensures payload + InactivityBytes(events[k..]) ==
      ((payload + PutBytes(events[k].offender)) + PutU64(events[k].missed)) + InactivityBytes(events[k + 1..])
  {
    assert events[k..][1..] == events[k + 1..];
    Shift(payload, PutBytes(events[k].offender), PutU64(events[k].missed), InactivityBytes(events[k + 1..]));
  }

  /** Append the inactivity events in order; no offender may have been seen before. */
  method AppendInactivities(start: Bytes, events: seq<Inactivity>, taken: set<Bytes>)
    returns (r: Result<Bytes, PenaltyError>)
    ensures r.Ok? ==> InactivitiesOk(events, taken) && r.value == start + InactivityBytes(events)
    ensures r.Err? ==> !InactivitiesOk(events, taken) || |start + InactivityBytes(events)| > MAX_PENALTY_WIRE
  {
    var payload, seen := start, taken;
    assert events[0..] == events;
    for k := 0 to |events|
      invariant payload + InactivityBytes(events[k..]) == start + InactivityBytes(events)
      invariant InactivitiesOk(events[..k], taken) && seen == taken + InactivityOffenders(events[..k])
    {
      var event := events[k];
      if event.offender in seen || |event.offender| > MAX_OFFENDER || event.missed != 1 {
        InactivityRepeats(events, k, taken);
        return Err(InvalidPenaltyEvents);
      }
      InactivitiesSnoc(events, k, taken);
      InactivityStep(payload, events, k);
      seen := seen + {event.offender};
      payload := payload + PutBytes(event.offender) + PutU64(event.missed);
      if |payload| > MAX_PENALTY_WIRE { return Err(InvalidPenaltyEvents); }
    }
    assert events[|events|..] == [] && payload + [] == payload && events[..|events|] == events;
    r := Ok(payload);
  }

  lemma SplitEvents(round: u64, e: seq<Equivocation>, i: seq<Inactivity>, authorized: Authorization)
    requires |e| + |i| <= MAX_EVENTS
    ensures EventsOk(round, e, i, authorized) <==>
      EquivocationsOk(e, round, authorized) && InactivitiesOk(i, EquivocationOffenders(e))
  {
    forall a, b | a in e && b in i && b.offender !in EquivocationOffenders(e) ensures a.offender != b.offender {}
    forall b | b in i && (forall a :: a in e ==> a.offender != b.offender)
      ensures b.offender !in EquivocationOffenders(e)
    {}
  }

  /** A penalty set may be committed to: its round fits, its events are sound, and its preimage is not too large. */
  ghost predicate Committable(round: u64, events: PenaltyEvents, authorized: Authorization) {
    && events.round == round && EventsOk(round, events.equivocations, events.inactivity, authorized)
    && |Canonical(round, events)| <= MAX_PENALTY_WIRE
  }

  /** The preimage of a penalty set, its events sorted by offender. */
  function Canonical(round: u64, events: PenaltyEvents): Bytes {
    PenaltyPreimage(round, Sort(EquivocationLe, events.equivocations), Sort(InactivityLe, events.inactivity))
  }

  const NO_EVENTS := PenaltyEvents(0, [], [])

  /** Lay out events in the given order, refusing what may not be committed to. */
  method LayOut(round: u64, equivocations: seq<Equivocation>, inactivity: seq<Inactivity>, authorized: Authorization)
    returns (r: Result<Bytes, PenaltyError>)
    ensures r.Ok? <==>
      && EquivocationsOk(equivocations, round, authorized)
      && InactivitiesOk(inactivity, EquivocationOffenders(equivocations))
      && |PenaltyPreimage(round, equivocations, inactivity)| <= MAX_PENALTY_WIRE
    ensures r.Ok? ==> r.value == PenaltyPreimage(round, equivocations, inactivity)
  {
    var head := (PENALTY_DOMAIN + PutU64(round)) + PutU64(|equivocations|);
    ghost var e, n, i := EquivocationBytes(equivocations), PutU64(|inactivity|), InactivityBytes(inactivity);
    Regrouped(PENALTY_DOMAIN, PutU64(round), PutU64(|equivocations|), e + (n + i));
    Regrouped(head, e, n, i);
    var first := AppendEquivocations(head, equivocations, round, authorized);
    if first.Err? { return Err(first.error); }
    var second := AppendInactivities(first.value.0 + PutU64(|inactivity|), inactivity, first.value.1);
    if second.Err? { return second; }
    if |second.value| > MAX_PENALTY_WIRE { return Err(InvalidPenaltyEvents); }
    r := second;
  }

  /** Sort both kinds of events and lay them out; no set at all is the empty set. */
  method PenaltyEventsPreimage(round: u64, events: Option<PenaltyEvents>, authorized: Authorization)
    returns (r: Result<Bytes, PenaltyError>)
    ensures events == None ==> r == Ok(Canonical(round, NO_EVENTS.(round := round)))
    ensures events.Some? ==> (r.Ok? <==> Committable(round, events.value, authorized))
    ensures events.Some? && r.Ok? ==> r.value == Canonical(round, events.value)
  {
    var e: seq<Equivocation>, i: seq<Inactivity> := [], [];
    if events.Some? {
      if events.value.round != round { return Err(InvalidPenaltyEvents); }
      if |events.value.equivocations| + |events.value.inactivity| > MAX_EVENTS { return Err(InvalidPenaltyEvents); }
      e, i := events.value.equivocations, events.value.inactivity;
    }
    var equivocations, inactivity := Sort(EquivocationLe, e), Sort(InactivityLe, i);
    SortKeeps(EquivocationLe, e);
    SortKeeps(InactivityLe, i);
    EventsPermute(round, e, i, equivocations, inactivity, authorized);
    SplitEvents(round, equivocations, inactivity, authorized);
    r := LayOut(round, equivocations, inactivity, authorized);
  }

  lemma Regrouped(a: Bytes, b: Bytes, c: Bytes, d: Bytes)
    ensures a + (b + (c + d)) == ((a + b) + c) + d
  {}

  /**
   * Two committable sets of the same round have the same preimage exactly when they hold the same events, in any order.
   */
  lemma PenaltyPreimageMeansEvents(round: u64, a: PenaltyEvents, b: PenaltyEvents, authorized: Authorization)
    requires Committable(round, a, authorized) && Committable(round, b, authorized)
    ensures Canonical(round, a) == Canonical(round, b) <==>
      multiset(a.equivocations) == multiset(b.equivocations) && multiset(a.inactivity) == multiset(b.inactivity)
  {
    var s, t := Sort(EquivocationLe, a.equivocations), Sort(EquivocationLe, b.equivocations);
    var u, v := Sort(InactivityLe, a.inactivity), Sort(InactivityLe, b.inactivity);
    SortKeeps(EquivocationLe, a.equivocations);
    SortKeeps(EquivocationLe, b.equivocations);
    SortKeeps(InactivityLe, a.inactivity);
    SortKeeps(InactivityLe, b.inactivity);
    if multiset(a.equivocations) == multiset(b.equivocations) && multiset(a.inactivity) == multiset(b.inactivity) {
      PenaltyOrderDoesNotMatter(round, a.equivocations, a.inactivity, b.equivocations, b.inactivity, authorized);
    }
    if PenaltyPreimage(round, s, u) == PenaltyPreimage(round, t, v) {
      PenaltyPreimageInjective(round, s, u, t, v);
    }
  }

  lemma PenaltyPreimageInjective(round: u64, s: seq<Equivocation>, u: seq<Inactivity>, t: seq<Equivocation>,
                                 v: seq<Inactivity>)
    requires PenaltyPreimage(round, s, u) == PenaltyPreimage(round, t, v)
    requires EvidenceFits(s) && EvidenceFits(t)
    requires (forall i :: i in u || i in v ==> |i.offender| <= MAX_OFFENDER)
    requires |s| <= MAX_EVENTS && |t| <= MAX_EVENTS && |u| <= MAX_EVENTS && |v| <= MAX_EVENTS
    ensures s == t && u == v
  {
    var x, y := PutU64(|u|) + InactivityBytes(u), PutU64(|v|) + InactivityBytes(v);
    var p, q := EquivocationBytes(s) + x, EquivocationBytes(t) + y;
    PeelFixed(PENALTY_DOMAIN, PutU64(round) + (PutU64(|s|) + p), PENALTY_DOMAIN, PutU64(round) + (PutU64(|t|) + q));
    PeelU64(round, PutU64(|s|) + p, round, PutU64(|t|) + q);
    PeelU64(|s|, p, |t|, q);
    PeelEquivocations(s, x, t, y);
    PeelU64(|u|, InactivityBytes(u), |v|, InactivityBytes(v));
    PeelInactivities(u, v);
  }

  ghost predicate EvidenceFits(events: seq<Equivocation>) {
    forall e :: e in events ==> |e.offender| <= MAX_OFFENDER && |e.evidence| <= MAX_EVIDENCE
  }

  lemma EquivocationHead(s: seq<Equivocation>, x: Bytes)
    requires s != []
    ensures EquivocationBytes(s) + x ==
      PutBytes(s[0].offender) + (PutBytes(s[0].evidence) + (EquivocationBytes(s[1..]) + x))
  {
    Regrouped(PutBytes(s[0].offender), PutBytes(s[0].evidence), EquivocationBytes(s[1..]), x);
  }

  lemma {:induction false} PeelEquivocations(s: seq<Equivocation>, x: Bytes, t: seq<Equivocation>, y: Bytes)
    requires |s| == |t| && EquivocationBytes(s) + x == EquivocationBytes(t) + y
    requires EvidenceFits(s) && EvidenceFits(t)
    ensures s == t && x == y
  {
    if s == [] {
      assert EquivocationBytes(s) + x == x && EquivocationBytes(t) + y == y;
    } else {
      var p, q := EquivocationBytes(s[1..]) + x, EquivocationBytes(t[1..]) + y;
      assert s[0] in s && t[0] in t;
      EquivocationHead(s, x);
      EquivocationHead(t, y);
      PeelBytes(s[0].offender, PutBytes(s[0].evidence) + p, t[0].offender, PutBytes(t[0].evidence) + q);
      PeelBytes(s[0].evidence, p, t[0].evidence, q);
      PeelEquivocations(s[1..], x, t[1..], y);
      assert s == [s[0]] + s[1..] && t == [t[0]] + t[1..];
    }
  }

  lemma {:induction false} PeelInactivities(u: seq<Inactivity>, v: seq<Inactivity>)
    requires |u| == |v| && InactivityBytes(u) == InactivityBytes(v)
    requires forall i :: i in u || i in v ==> |i.offender| <= MAX_OFFENDER
    ensures u == v
  {
    if u != [] {
      var p, q := InactivityBytes(u[1..]), InactivityBytes(v[1..]);
      assert u[0] in u && v[0] in v;
      PeelBytes(u[0].offender, PutU64(u[0].missed) + p, v[0].offender, PutU64(v[0].missed) + q);
      PeelU64(u[0].missed, p, v[0].missed, q);
      PeelInactivities(u[1..], v[1..]);
      assert u == [u[0]] + u[1..] && v == [v[0]] + v[1..];
    }
  }
}
