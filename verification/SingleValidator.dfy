/** Finality of a lone bonded validator: crates/cordial-f1r3node-adapter/src/snapshot.rs. */
module SingleValidator {
  import opened Arithmetic
  import opened Basics
  import opened Dags
  import opened Lace
  import opened Rounds

  type Depths = map<Identity, nat>

  datatype Leader = Fork | Found(id: Identity) | Incomplete

  // ---- rounds and waves ----

  predicate BlockAt(depths: Depths, validator: Bytes, round: nat, id: Identity) {
    id in depths && id.creator == validator && depths[id] == round
  }

  /** The validator signed two blocks in one round. */
  ghost predicate Forked(depths: Depths, validator: Bytes) {
    exists a, b, round :: a != b && BlockAt(depths, validator, round, a) && BlockAt(depths, validator, round, b)
  }

  ghost predicate HasRound(depths: Depths, validator: Bytes, round: nat) {
    exists id :: BlockAt(depths, validator, round, id)
  }

  /** The validator has exactly one block in every round of the wave. */
  ghost predicate Complete(depths: Depths, validator: Bytes, wave: nat, wavelength: nat) {
    forall offset: int :: 0 <= offset < wavelength ==> Alone(depths, validator, RoundIn(wave, wavelength, offset))
  }

  ghost predicate Alone(depths: Depths, validator: Bytes, round: int) {
    round >= 0 && HasRound(depths, validator, round) &&
    forall a, b :: BlockAt(depths, validator, round, a) && BlockAt(depths, validator, round, b) ==> a == b
  }

  function RoundIn(wave: nat, wavelength: nat, offset: int): int {
    wave * wavelength + offset
  }

  ghost predicate IsMaximum(depths: Depths, max: nat) {
    (exists id :: id in depths && depths[id] == max) && forall id :: id in depths ==> depths[id] <= max
  }

  // ---- scanning for a fork ----

  method HasSameRoundFork(depths: Depths, validator: Bytes) returns (forked: bool)
    ensures forked <==> Forked(depths, validator)
  {
    var rounds: set<nat> := {};
    var rest := depths.Keys;
    while rest != {}
      invariant rest <= depths.Keys
      invariant forall round :: round in rounds <==> exists id :: id !in rest && BlockAt(depths, validator, round, id)
      invariant forall a, b, round ::
        a !in rest && b !in rest && BlockAt(depths, validator, round, a) && BlockAt(depths, validator, round, b) ==>
          a == b
      decreases |rest|
    {
      var id :| id in rest;
      var round := depths[id];
      if id.creator == validator {
        assert BlockAt(depths, validator, round, id);
        if round in rounds { return true; }
        rounds := rounds + {round};
      }
      rest := rest - {id};
    }
    forked := false;
  }

  // ---- scanning for the latest complete wave ----

  method MaxRound(depths: Depths) returns (max: nat)
    requires depths != map[]
    ensures IsMaximum(depths, max)
  {
    var rest := depths.Keys;
    var first :| first in depths;
    max := depths[first];
    while rest != {}
      invariant rest <= depths.Keys
      invariant exists id :: id in depths && depths[id] == max
      invariant forall id :: id in depths && id !in rest ==> depths[id] <= max
      decreases |rest|
    {
      var id :| id in rest;
      if depths[id] > max { max := depths[id]; }
      rest := rest - {id};
    }
  }

  /** One block of the validator in this round, and no other. */
  method OnlyBlock(depths: Depths, validator: Bytes, round: nat) returns (only: Option<Identity>)
    ensures only.Some? <==> Alone(depths, validator, round)
    ensures only.Some? ==> BlockAt(depths, validator, round, only.value)
  {
    if id :| id in depths && BlockAt(depths, validator, round, id) {
      if other :| other in depths && other != id && BlockAt(depths, validator, round, other) {
        return None;
      }
      return Some(id);
    }
    only := None;
  }

  /** The wave's first block when the wave is complete. */
  method WaveLeader(depths: Depths, validator: Bytes, wave: nat, wavelength: nat) returns (leader: Option<Identity>)
    requires wavelength > 0
    ensures leader.Some? <==> Complete(depths, validator, wave, wavelength)
    ensures leader.Some? ==> BlockAt(depths, validator, RoundIn(wave, wavelength, 0), leader.value)
  {
    RoundsAreNatural(wave, wavelength);
    leader := None;
    for offset := 0 to wavelength
      invariant forall k: int :: 0 <= k < offset ==> Alone(depths, validator, RoundIn(wave, wavelength, k))
      invariant offset > 0 ==> leader.Some? && BlockAt(depths, validator, RoundIn(wave, wavelength, 0), leader.value)
    {
      var block := OnlyBlock(depths, validator, RoundIn(wave, wavelength, offset));
      if block == None { return None; }
      if offset == 0 { leader := block; }
    }
  }

  lemma RoundsAreNatural(wave: nat, wavelength: nat)
    ensures 0 <= wave * wavelength
  {}

  /** Every round of a complete wave holds a block, so the wave ends at or below the highest round. */
  lemma CompleteIsReached(depths: Depths, validator: Bytes, wave: nat, wavelength: nat, max: nat)
    requires wavelength > 0 && Complete(depths, validator, wave, wavelength) && IsMaximum(depths, max)
    ensures RoundIn(wave, wavelength, wavelength - 1) <= max && wave <= max / wavelength
  {
    assert Alone(depths, validator, RoundIn(wave, wavelength, wavelength - 1));
    var id :| BlockAt(depths, validator, RoundIn(wave, wavelength, wavelength - 1), id);
    WaveOfReachedRound(wave, wavelength, max);
  }

  lemma {:induction false} WaveOfReachedRound(wave: nat, wavelength: nat, max: nat)
    requires wavelength > 0 && wave * wavelength <= max
    ensures wave <= max / wavelength
  {
    QuotientIs(max, wavelength, wave);
  }

  /** The last round of the wave that holds the highest round fits 64 bits. */
  ghost predicate TopFits(max: nat, wavelength: nat) {
    wavelength > 0 && LastRoundOfWave(max / wavelength, wavelength).Some?
  }

  lemma LowerWavesFit(wave: nat, top: nat, wavelength: nat)
    requires wave <= top && LastRoundOfWave(top, wavelength).Some?
    ensures LastRoundOfWave(wave, wavelength) == Some(RoundIn(wave, wavelength, wavelength - 1))
  {
    Products(wave, wavelength, top);
  }

  /** What a scan reports: the leader and number of the greatest complete wave. */
  ghost predicate Latest(depths: Depths, validator: Bytes, wavelength: nat, leader: Option<Identity>, wave: nat) {
    match leader
    case Some(id) =>
      && wavelength > 0 && (exists max :: IsMaximum(depths, max) && TopFits(max, wavelength))
      && Complete(depths, validator, wave, wavelength)
      && BlockAt(depths, validator, RoundIn(wave, wavelength, 0), id)
      && forall later :: wave < later ==> !Complete(depths, validator, later, wavelength)
    case None =>
      || Forked(depths, validator) || wavelength == 0 || depths == map[]
      || (exists max :: IsMaximum(depths, max) && !TopFits(max, wavelength))
      || forall w: nat :: !Complete(depths, validator, w, wavelength)
  }

  method LatestCompleteWave(depths: Depths, validator: Bytes, wavelength: nat)
    returns (leader: Option<Identity>, ghost wave: nat)
    ensures Latest(depths, validator, wavelength, leader, wave)
    ensures leader.Some? ==> !Forked(depths, validator)
  {
    wave := 0;
    var forked := HasSameRoundFork(depths, validator);
    if forked || depths == map[] { return None, 0; }
    var max := MaxRound(depths);
    if wavelength == 0 { return None, 0; }
    QuotientIs(max, wavelength, 0);
    var next: nat := max / wavelength;
    forall later: nat | next < later ensures !Complete(depths, validator, later, wavelength) {
      if Complete(depths, validator, later, wavelength) {
        CompleteIsReached(depths, validator, later, wavelength, max);
      }
    }
    ghost var top := next;
    while true
      invariant next <= top
      invariant next < top ==> TopFits(max, wavelength)
      invariant forall later: nat :: next < later ==> !Complete(depths, validator, later, wavelength)
      decreases next
    {
      var last := LastRoundOfWave(next, wavelength);
      if last == None {
        if TopFits(max, wavelength) { LowerWavesFit(next, top, wavelength); }
        return None, 0;
      }
      if next == top { assert TopFits(max, wavelength); }
      LowerWavesFit(next, top, wavelength);
      if last.value <= max {
        leader := WaveLeader(depths, validator, next, wavelength);
        if leader.Some? {
          wave := next;
          return leader, next;
        }
      } else {
        NotReached(depths, validator, next, wavelength, max);
      }
      if next == 0 { return None, 0; }
      next := next - 1;
    }
  }

  lemma NotReached(depths: Depths, validator: Bytes, wave: nat, wavelength: nat, max: nat)
    requires wavelength > 0 && IsMaximum(depths, max) && RoundIn(wave, wavelength, wavelength - 1) > max
    ensures !Complete(depths, validator, wave, wavelength)
  {
    if Complete(depths, validator, wave, wavelength) { CompleteIsReached(depths, validator, wave, wavelength, max); }
  }

  /** A fork is terminal; otherwise the latest complete wave decides. */
  method SingleValidatorLeader(depths: Depths, validator: Bytes, wavelength: nat) returns (r: Leader, ghost wave: nat)
    ensures r == Fork <==> Forked(depths, validator)
    ensures r.Found? ==> Latest(depths, validator, wavelength, Some(r.id), wave)
    ensures r == Incomplete ==> Latest(depths, validator, wavelength, None, wave)
  {
    wave := 0;
    var forked := HasSameRoundFork(depths, validator);
    if forked { return Fork, 0; }
    var leader;
    leader, wave := LatestCompleteWave(depths, validator, wavelength);
    r := if leader.Some? then Found(leader.value) else Incomplete;
  }

  // ---- growth ----

  ghost predicate Extends(depths: Depths, more: Depths) {
    forall id :: id in depths ==> id in more && more[id] == depths[id]
  }

  /** A complete wave stays complete while the validator does not fork. */
  lemma CompleteSurvives(depths: Depths, more: Depths, validator: Bytes, wave: nat, wavelength: nat)
    requires Extends(depths, more) && !Forked(more, validator) && Complete(depths, validator, wave, wavelength)
    ensures Complete(more, validator, wave, wavelength)
  {
    forall offset: int | 0 <= offset < wavelength ensures Alone(more, validator, RoundIn(wave, wavelength, offset)) {
      var round := RoundIn(wave, wavelength, offset);
      assert Alone(depths, validator, round);
      var id :| BlockAt(depths, validator, round, id);
      assert BlockAt(more, validator, round, id);
    }
  }

  /**
   * For one unforked validator more depths never move the latest complete wave backwards, unless
   * the wave of the new highest round no longer fits 64 bits: then, and only then, the answer is lost.
   */
  lemma {:induction false} NeverBackwards(depths: Depths, more: Depths, validator: Bytes, wavelength: nat,
                                          leader: Option<Identity>, wave: nat,
                                          leader': Option<Identity>, wave': nat, max: nat)
    requires Extends(depths, more) && !Forked(more, validator) && IsMaximum(more, max)
    requires leader.Some? && Latest(depths, validator, wavelength, leader, wave)
    requires Latest(more, validator, wavelength, leader', wave')
    ensures leader'.Some? <==> TopFits(max, wavelength)
    ensures leader'.Some? ==> wave' >= wave
    ensures leader'.Some? && wave' == wave ==> leader' == leader
  {
    CompleteSurvives(depths, more, validator, wave, wavelength);
    var id :| id in more && more[id] == max;
    assert forall m :: IsMaximum(more, m) ==> m == max;
    if leader'.Some? && wave' == wave {
      var round := RoundIn(wave, wavelength, 0);
      assert BlockAt(more, validator, round, leader.value);
    }
  }

  // ---- an answer that is lost ----

  const TOP: nat := U64 - 1

  function Tip(tag: byte): Identity {
    Identity(seq(32, _ => tag), [7], [])
  }

  /** The last complete wave of three rounds below 2^64, and one block more in the highest round of all. */
  const BELOW: Depths := map[Tip(1) := TOP - 3, Tip(2) := TOP - 2, Tip(3) := TOP - 1]
  const WITH_TOP: Depths := BELOW[Tip(4) := TOP]

  lemma TagsDiffer(a: byte, b: byte)
    ensures Tip(a) == Tip(b) <==> a == b
  {
    assert Tip(a).hash[0] == a && Tip(b).hash[0] == b;
  }

  /** The one block makes the complete wave below it count for nothing. */
  lemma TopRoundLosesTheAnswer(leader: Option<Identity>, wave: nat)
    requires Latest(WITH_TOP, [7], 3, leader, wave)
    ensures Complete(WITH_TOP, [7], TOP / 3 - 1, 3) && !Forked(WITH_TOP, [7]) && leader == None
  {
    Inhabited();
    forall a, b, round | BlockAt(WITH_TOP, [7], round, a) && BlockAt(WITH_TOP, [7], round, b) ensures a == b {}
    assert BlockAt(WITH_TOP, [7], TOP - 3, Tip(1)) && RoundIn(TOP / 3 - 1, 3, 0) == TOP - 3;
    assert BlockAt(WITH_TOP, [7], TOP - 2, Tip(2)) && RoundIn(TOP / 3 - 1, 3, 1) == TOP - 2;
    assert BlockAt(WITH_TOP, [7], TOP - 1, Tip(3)) && RoundIn(TOP / 3 - 1, 3, 2) == TOP - 1;
    assert IsMaximum(WITH_TOP, TOP) && !TopFits(TOP, 3);
    assert forall m :: IsMaximum(WITH_TOP, m) ==> m == TOP;
  }

  lemma Inhabited()
    ensures forall id :: id in WITH_TOP <==> id == Tip(1) || id == Tip(2) || id == Tip(3) || id == Tip(4)
    ensures WITH_TOP[Tip(1)] == TOP - 3 && WITH_TOP[Tip(2)] == TOP - 2
    ensures WITH_TOP[Tip(3)] == TOP - 1 && WITH_TOP[Tip(4)] == TOP
  {
    TagsDiffer(1, 2);
    TagsDiffer(1, 3);
    TagsDiffer(1, 4);
    TagsDiffer(2, 3);
    TagsDiffer(2, 4);
    TagsDiffer(3, 4);
  }

  /** The depth of every stored block that has one. */
  ghost function AllDepths(d: Dag): Depths {
    map id | id in d.blocks && Depth(d, id).Some? :: Depth(d, id).value
  }

  /** Inserting a new block, strictly or with missing predecessors, only adds depths. */
  lemma {:induction false} GrowthExtendsDepths(d: Dag, d': Dag, id: Identity, content: Content)
    requires OneMoreBlock(d, d', id, content)
    ensures Extends(AllDepths(d), AllDepths(d'))
  {
    forall k | k in AllDepths(d) ensures Depth(d', k) == Depth(d, k) {
      KnownDepthSurvives(d, d', id, content, k);
    }
  }
}
