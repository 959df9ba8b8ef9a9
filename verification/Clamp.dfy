/** Fixed-point reputation clamping: crates/cordial-por/src/clamp.rs. */
module Clamp {
  import opened Arithmetic
  import opened Basics
  import opened Por

  datatype ClampError = InvalidClampScale | ClampOverflow

  // ---- integer square root ----

  ghost predicate IsFloorSqrt(n: int, r: int) {
    0 <= r && r * r <= n < (r + 1) * (r + 1)
  }

  lemma FloorSqrtBelow(n: int, r: int, k: int)
    requires IsFloorSqrt(n, r) && 0 <= k && k * k <= n
    ensures k <= r
  {
    SquaresGrow(k, r + 1);
  }

  lemma FloorSqrtUnique(n: int, r: int, k: int)
    requires IsFloorSqrt(n, r) && IsFloorSqrt(n, k)
    ensures r == k
  {
    FloorSqrtBelow(n, r, k);
    FloorSqrtBelow(n, k, r);
  }

  lemma {:induction false} FloorSqrtExists(n: nat)
    ensures exists r: nat :: IsFloorSqrt(n, r)
  {
    if n == 0 {
      assert IsFloorSqrt(0, 0);
    } else {
      FloorSqrtExists(n - 1);
      var r: nat :| IsFloorSqrt(n - 1, r);
      NextSquare(r + 1);
      assert if (r + 1) * (r + 1) <= n then IsFloorSqrt(n, r + 1) else IsFloorSqrt(n, r);
    }
  }

  lemma NextSquare(r: int)
    ensures (r + 1) * (r + 1) == r * r + 2 * r + 1
  {}

  ghost function FloorSqrt(n: nat): (r: nat)
    ensures IsFloorSqrt(n, r)
  {
    FloorSqrtExists(n);
    var r: nat :| IsFloorSqrt(n, r);
    r
  }

  /** Binary search for the floor of the square root, then the two adjusting loops. */
  method IntegerSqrt(n: nat) returns (low: nat)
    requires n < U128
    ensures low == FloorSqrt(n)
  {
    low := 0;
    var high := U64;
    while low + 1 < high
      invariant 0 <= low < high <= U64 && low * low <= n < high * high
      decreases high - low
    {
      var mid := (low + high) / 2;
      if mid * mid < U128 {
        if mid * mid == n {
          NextSquare(mid);
          FloorSqrtUnique(n, mid, FloorSqrt(n));
          return mid;
        }
        if mid * mid < n { low := mid; } else { high := mid; }
      } else {
        high := mid;
      }
    }
    assert high == low + 1 && IsFloorSqrt(n, low);
    while (low + 1) * (low + 1) < U128 && (low + 1) * (low + 1) <= n
      invariant low * low <= n
      decreases n - low * low
    {
      NextSquare(low);
      low := low + 1;
    }
    while low * low >= U128 || low * low > n
      invariant n < (low + 1) * (low + 1)
      decreases low
    {
      low := low - 1;
    }
    FloorSqrtUnique(n, low, FloorSqrt(n));
  }

  // ---- one value ----

  ghost function Rounded(numerator: nat, d: nat): nat
    requires d > 0
  {
    (numerator + d / 2) / d
  }

  /** The scaled value over the root of the sum of squares, rounded half up. */
  ghost function Clamped(value: nat, scale: nat): nat
    requires scale > 0
  {
    if value == 0 then 0
    else
      var denominator := FloorSqrt(scale * scale + value * value);
      RootIsPositive(value, scale);
      Products(value, scale, 0);
      Rounded(value * scale, denominator)
  }

  lemma RootIsPositive(value: nat, scale: nat)
    requires scale > 0
    ensures var d := FloorSqrt(scale * scale + value * value); d >= scale && d >= value
  {
    var a, b := scale * scale, value * value;
    FloorSqrtBelow(a + b, FloorSqrt(a + b), scale);
    FloorSqrtBelow(a + b, FloorSqrt(a + b), value);
  }

  /** The clamp never exceeds the value or the scale. */
  lemma {:induction false} ClampBounds(value: nat, scale: nat)
    requires scale > 0
    ensures Clamped(value, scale) <= value && Clamped(value, scale) <= scale
  {
    if value > 0 {
      var d := FloorSqrt(scale * scale + value * value);
      RootIsPositive(value, scale);
      RoundedBelow(value, scale, d);
      RoundedBelow(scale, value, d);
    }
  }

  lemma {:induction false} RoundedBelow(a: nat, b: nat, d: nat)
    requires d > 0 && b <= d
    ensures 0 <= a * b == b * a && Rounded(a * b, d) <= a
  {
    Products(b, a, d);
    assert (a + 1) * d == a * d + d;
    assert a * b == b * a && a * d == d * a;
    QuotientIs(a * b + d / 2, d, a);
  }

  /** The root grows no faster than the value. */
  lemma {:induction false} RootIsLipschitz(value: nat, more: nat, scale: nat)
    requires scale > 0
    ensures var d := FloorSqrt(scale * scale + value * value);
      var d' := FloorSqrt(scale * scale + (value + more) * (value + more));
      d <= d' <= d + more
  {
    var a, v, v' := scale * scale, value * value, (value + more) * (value + more);
    var d, d' := FloorSqrt(a + v), FloorSqrt(a + v');
    RootIsPositive(value, scale);
    SquaresGrow(value, value + more);
    FloorSqrtBelow(a + v', d', d);
    ShiftedSquares(value, d + 1, more);
    assert a + v' < (d + 1 + more) * (d + 1 + more);
    SquaresGrow(d', d + 1 + more);
  }

  /** Shifting the larger root by the same amount grows its square at least as much. */
  lemma ShiftedSquares(a: nat, b: nat, more: nat)
    requires a <= b
    ensures (a + more) * (a + more) - a * a <= (b + more) * (b + more) - b * b
  {
    assert (a + more) * (a + more) == a * a + 2 * (more * a) + more * more;
    assert (b + more) * (b + more) == b * b + 2 * (more * b) + more * more;
    assert more * a <= more * b;
  }

  /** A larger value never clamps to a smaller one. */
  lemma {:induction false} ClampMonotone(value: nat, larger: nat, scale: nat)
    requires scale > 0 && value <= larger
    ensures Clamped(value, scale) <= Clamped(larger, scale)
  {
    if value > 0 {
      var more := larger - value;
      var d, d' := FloorSqrt(scale * scale + value * value), FloorSqrt(scale * scale + larger * larger);
      RootIsPositive(value, scale);
      RootIsPositive(larger, scale);
      RootIsLipschitz(value, more, scale);
      Products(value, scale, larger);
      ClampBounds(value, scale);
      RoundedMonotone(value, larger, scale, d, d', Clamped(value, scale));
    }
  }

  lemma {:induction false} RoundedMonotone(value: nat, larger: nat, scale: nat, d: nat, d': nat, q: nat)
    requires 0 < d <= d' <= d + (larger - value) && q <= scale && value <= larger
    requires 0 <= value * scale && 0 <= larger * scale && q == Rounded(value * scale, d)
    ensures q <= Rounded(larger * scale, d')
  {
    var step, more := d' - d, larger - value;
    QuotientIs(value * scale + d / 2, d, q);
    StepBound(q, step, scale, more);
    Distribute(d, step, q);
    Distribute(value, more, scale);
    QuotientIs(larger * scale + d' / 2, d', q);
  }

  lemma StepBound(q: nat, step: nat, scale: nat, more: nat)
    requires q <= scale && step <= more
    ensures 0 <= q * step <= more * scale
  {
    Products(q, step, scale);
    Products(step, scale, more);
    assert scale * step == step * scale;
  }

  /** Squares of two words and their product fit 128 bits with room for the rounding term. */
  lemma {:induction false} ProductsFit(r: u64, s: u64)
    ensures s * s < U128 && r * r < U128 && r * s + U64 < U128
  {
    ProductFits(r, s);
    ProductFits(r, r);
    ProductFits(s, s);
  }

  lemma {:induction false} ProductFits(r: u64, s: u64)
    ensures r * s + U64 < U128
  {
    Products(r, s, U64 - 1);
    Products(s, U64 - 1, U64 - 1);
    assert (U64 - 1) * (U64 - 1) == U128 - U64 - U64 + 1;
    assert (U64 - 1) * s == s * (U64 - 1);
  }

  predicate Overflows(value: u64, scale: u64) {
    value != 0 && value * value + scale * scale >= U128
  }

  method ClampReputationValue(value: u64, scale: u64) returns (r: Result<u64, ClampError>)
    ensures r == Err(InvalidClampScale) <==> scale == 0
    ensures r == Err(ClampOverflow) <==> scale != 0 && Overflows(value, scale)
    ensures r.Ok? <==> scale != 0 && !Overflows(value, scale)
    ensures r.Ok? ==> r.value == Clamped(value, scale) && r.value <= value && r.value <= scale
  {
    if scale == 0 { return Err(InvalidClampScale); }
    if value == 0 { return Ok(0); }
    ProductsFit(value, scale);
    if scale * scale >= U128 { assert false; }
    if value * value >= U128 { assert false; }
    if scale * scale + value * value >= U128 { return Err(ClampOverflow); }
    var denominator := IntegerSqrt(scale * scale + value * value);
    RootIsPositive(value, scale);
    ClampBounds(value, scale);
    if denominator == 0 { assert false; }
    if value * scale >= U128 { assert false; }
    var half := denominator / 2;
    assert half < U64 by { SquaresGrow(U64, denominator); }
    if value * scale + half >= U128 { assert false; }
    var result := (value * scale + half) / denominator;
    if result >= U64 { assert false; }
    r := Ok(result);
  }

  // ---- vectors ----

  /** Some entry cannot be clamped. */
  ghost predicate AnyOverflows(values: seq<Entry>, scale: u64) {
    values != [] && (Overflows(values[|values| - 1].reputation, scale) || AnyOverflows(values[..|values| - 1], scale))
  }

  lemma {:induction false} PrefixOverflows(prefix: seq<Entry>, values: seq<Entry>, scale: u64)
    requires prefix <= values && AnyOverflows(prefix, scale)
    ensures AnyOverflows(values, scale)
  {
    if |prefix| == |values| {
      assert prefix == values;
    } else {
      PrefixOverflows(prefix, values[..|values| - 1], scale);
    }
  }

  /** Entry by entry clamp under the same ids. */
  ghost predicate ClampedFrom(input: seq<Entry>, scale: u64, output: seq<Entry>)
    requires scale > 0
  {
    |output| == |input| && forall k :: 0 <= k < |input| ==> ClampedEntry(input[k], scale, output[k])
  }

  ghost predicate ClampedEntry(entry: Entry, scale: u64, output: Entry)
    requires scale > 0
  {
    && output.nodeId == entry.nodeId && output.reputation == Clamped(entry.reputation, scale)
    && output.retained == 0 && !output.excluded
  }

  method ClampReputationVector(reputation: Vector, scale: u64) returns (r: Result<Vector, ClampError>)
    ensures r == Err(InvalidClampScale) <==> scale == 0
    ensures r == Err(ClampOverflow) <==> scale != 0 && AnyOverflows(reputation.values, scale)
    ensures r.Ok? ==> r.value.round == reputation.round && ClampedFrom(reputation.values, scale, r.value.values)
  {
    if scale == 0 { return Err(InvalidClampScale); }
    var values: seq<Entry> := [];
    for i := 0 to |reputation.values|
      invariant ClampedFrom(reputation.values[..i], scale, values)
      invariant !AnyOverflows(reputation.values[..i], scale)
    {
      var entry := reputation.values[i];
      var clamped := ClampReputationValue(entry.reputation, scale);
      ghost var front, longer := reputation.values[..i], reputation.values[..i + 1];
      assert longer[..|longer| - 1] == front && longer == front + [entry];
      if clamped.Err? {
        PrefixOverflows(longer, reputation.values, scale);
        return Err(clamped.error);
      }
      values := values + [NewEntry(entry.nodeId, clamped.value)];
    }
    assert reputation.values[..|reputation.values|] == reputation.values;
    r := Ok(Vector(reputation.round, values));
  }

  // ---- carry forward ----

  /** Everything before the cursor is smaller than `bound`; the cursor itself is not. */
  ghost predicate CursorAt(entries: seq<Entry>, index: int, bound: Bytes) {
    && 0 <= index <= |entries|
    && (forall k :: 0 <= k < index ==> Less(entries[k].nodeId, bound))
    && (index < |entries| ==> !Less(entries[index].nodeId, bound))
  }

  /** Move the cursor past the smaller entries. */
  method AdvanceTo(start: nat, entries: seq<Entry>, target: Bytes) returns (index: nat)
    requires start <= |entries|
    ensures start <= index <= |entries| && forall k :: start <= k < index ==> Less(entries[k].nodeId, target)
    ensures index < |entries| ==> !Less(entries[index].nodeId, target)
  {
    index := start;
    while index < |entries| && Less(entries[index].nodeId, target)
      invariant start <= index <= |entries|
      invariant forall k :: start <= k < index ==> Less(entries[k].nodeId, target)
    {
      index := index + 1;
    }
  }

  lemma NotBefore(entries: seq<Entry>, i: int, m: int)
    requires Ordered(entries) && 0 <= i < |entries| && 0 <= m < |entries| && !Less(entries[i].nodeId, entries[m].nodeId)
    ensures m <= i
  {}

  /** In a canonical vector the cursor finds the target whenever the vector holds it. */
  lemma CursorFinds(entries: seq<Entry>, index: int, target: Bytes)
    requires Ordered(entries) && CursorAt(entries, index, target)
    ensures HasNode(entries, target) <==> index < |entries| && entries[index].nodeId == target
    ensures HasNode(entries, target) ==> ReputationIn(entries, target) == entries[index].reputation
  {
    if HasNode(entries, target) {
      var m :| 0 <= m < |entries| && entries[m].nodeId == target;
      assert m >= index;
      NotBefore(entries, index, m);
      ReputationAt(entries, m);
    }
  }

  ghost predicate Carried(entry: Entry, previous: seq<Entry>, contribution: seq<Entry>) {
    HasNode(previous, entry.nodeId) && !HasNode(contribution, entry.nodeId)
  }

  /** Some entry that is not carried over cannot be clamped. */
  ghost predicate AnyUncarriedOverflows(values: seq<Entry>, previous: seq<Entry>, contribution: seq<Entry>, scale: u64)
  {
    values != [] &&
    var front, last := values[..|values| - 1], values[|values| - 1];
    (!Carried(last, previous, contribution) && Overflows(last.reputation, scale)) ||
      AnyUncarriedOverflows(front, previous, contribution, scale)
  }

  lemma {:induction false} PrefixUncarriedOverflows(prefix: seq<Entry>, values: seq<Entry>, previous: seq<Entry>,
                                                    contribution: seq<Entry>, scale: u64)
    requires prefix <= values && AnyUncarriedOverflows(prefix, previous, contribution, scale)
    ensures AnyUncarriedOverflows(values, previous, contribution, scale)
  {
    if |prefix| == |values| {
      assert prefix == values;
    } else {
      PrefixUncarriedOverflows(prefix, values[..|values| - 1], previous, contribution, scale);
    }
  }

  /** Where nobody rated a known node its previous reputation stays as it was; everything else is clamped. */
  ghost predicate CarriedEntry(entry: Entry, previous: seq<Entry>, contribution: seq<Entry>, scale: u64, output: Entry)
    requires scale > 0
  {
    if Carried(entry, previous, contribution) then
      output == NewEntry(entry.nodeId, ReputationIn(previous, entry.nodeId))
    else ClampedEntry(entry, scale, output)
  }

  ghost predicate CarriedFrom(input: seq<Entry>, previous: seq<Entry>, contribution: seq<Entry>, scale: u64,
                              output: seq<Entry>)
    requires scale > 0
  {
    |output| == |input| && forall k :: 0 <= k < |input| ==>
      CarriedEntry(input[k], previous, contribution, scale, output[k])
  }

  /** The entry under the cursor, if it is the target's. */
  predicate At(entries: seq<Entry>, index: nat, target: Bytes) {
    index < |entries| && entries[index].nodeId == target
  }

  /** One entry given the cursors: carried over when only the previous vector is at it, clamped otherwise. */
  method CarryOne(entry: Entry, previous: seq<Entry>, p: nat, contribution: seq<Entry>, c: nat, scale: u64)
    returns (r: Result<Entry, ClampError>)
    requires scale > 0
    ensures At(previous, p, entry.nodeId) && !At(contribution, c, entry.nodeId) ==>
      r == Ok(NewEntry(entry.nodeId, previous[p].reputation))
    ensures !At(previous, p, entry.nodeId) || At(contribution, c, entry.nodeId) ==>
      && (r.Err? <==> Overflows(entry.reputation, scale))
      && (r.Ok? ==> ClampedEntry(entry, scale, r.value))
    ensures r.Err? ==> r.error == ClampOverflow
  {
    if At(previous, p, entry.nodeId) && !At(contribution, c, entry.nodeId) {
      return Ok(NewEntry(entry.nodeId, previous[p].reputation));
    }
    var clamped := ClampReputationValue(entry.reputation, scale);
    if clamped.Err? { return Err(clamped.error); }
    r := Ok(NewEntry(entry.nodeId, clamped.value));
  }

  /** In canonical vectors the cursors decide as membership does. */
  lemma CursorsDecide(entry: Entry, previous: seq<Entry>, p: nat, contribution: seq<Entry>, c: nat)
    requires Ordered(previous) && CursorAt(previous, p, entry.nodeId)
    requires Ordered(contribution) && CursorAt(contribution, c, entry.nodeId)
    ensures Carried(entry, previous, contribution) <==>
      At(previous, p, entry.nodeId) && !At(contribution, c, entry.nodeId)
    ensures At(previous, p, entry.nodeId) ==> previous[p].reputation == ReputationIn(previous, entry.nodeId)
  {
    CursorFinds(previous, p, entry.nodeId);
    CursorFinds(contribution, c, entry.nodeId);
  }

  /** Canonical inputs: node ids strictly increase in all three vectors. */
  ghost predicate Canonical(blended: seq<Entry>, previous: seq<Entry>, contribution: seq<Entry>) {
    Ordered(blended) && Ordered(previous) && Ordered(contribution)
  }

  /** What holds of an output entry whatever the order of the vectors: clamped, or carried over under the same id. */
  ghost predicate Plausible(entry: Entry, previous: seq<Entry>, scale: u64, output: Entry)
    requires scale > 0
  {
    ClampedEntry(entry, scale, output) || exists k ::
      0 <= k < |previous| && previous[k].nodeId == entry.nodeId &&
        output == NewEntry(entry.nodeId, previous[k].reputation)
  }

  ghost predicate AllPlausible(input: seq<Entry>, previous: seq<Entry>, scale: u64, output: seq<Entry>)
    requires scale > 0
  {
    |output| == |input| && forall k :: 0 <= k < |input| ==> Plausible(input[k], previous, scale, output[k])
  }

  /** The transition: a plain clamp, or the carry-forward pass. */
  method ClampReputationTransition(blended: Vector, previous: Vector, contribution: Vector,
                                   carryForward: bool, scale: u64) returns (r: Result<Vector, ClampError>)
    ensures r == Err(InvalidClampScale) <==> scale == 0
    ensures r.Ok? ==> r.value.round == blended.round
    ensures !carryForward && scale != 0 ==> (r == Err(ClampOverflow) <==> AnyOverflows(blended.values, scale))
    ensures !carryForward && r.Ok? ==> ClampedFrom(blended.values, scale, r.value.values)
    ensures carryForward && r.Ok? ==> AllPlausible(blended.values, previous.values, scale, r.value.values)
    ensures carryForward && scale != 0 && Canonical(blended.values, previous.values, contribution.values) ==>
      && (r == Err(ClampOverflow) <==>
          AnyUncarriedOverflows(blended.values, previous.values, contribution.values, scale))
      && (r.Ok? ==> CarriedFrom(blended.values, previous.values, contribution.values, scale, r.value.values))
  {
    if !carryForward {
      r := ClampReputationVector(blended, scale);
      return;
    }
    if scale == 0 { return Err(InvalidClampScale); }
    var values := CarryForward(blended.values, previous.values, contribution.values, scale);
    if values.Err? { return Err(values.error); }
    r := Ok(Vector(blended.round, values.value));
  }

  /** The carry-forward pass, with one cursor into each vector. */
  method CarryForward(blended: seq<Entry>, previous: seq<Entry>, contribution: seq<Entry>, scale: u64)
    returns (r: Result<seq<Entry>, ClampError>)
    requires scale > 0
    ensures r.Err? ==> r.error == ClampOverflow
    ensures r.Ok? ==> AllPlausible(blended, previous, scale, r.value)
    ensures Canonical(blended, previous, contribution) ==>
      && (r.Err? <==> AnyUncarriedOverflows(blended, previous, contribution, scale))
      && (r.Ok? ==> CarriedFrom(blended, previous, contribution, scale, r.value))
  {
    var p, c := 0, 0;
    var values: seq<Entry> := [];
    for i := 0 to |blended|
      invariant p <= |previous| && c <= |contribution| && AllPlausible(blended[..i], previous, scale, values)
      invariant Canonical(blended, previous, contribution) ==>
        CarriedSoFar(blended, i, previous, p, contribution, c, scale, values)
    {
      var entry := blended[i];
      ghost var p0, c0 := p, c;
      p := AdvanceTo(p, previous, entry.nodeId);
      c := AdvanceTo(c, contribution, entry.nodeId);
      var output := CarryOne(entry, previous, p, contribution, c, scale);
      if Canonical(blended, previous, contribution) {
        CarryStep(blended, i, previous, p0, p, contribution, c0, c, scale, values, output);
      }
      if output.Err? { return Err(output.error); }
      values := values + [output.value];
      assert blended[..i + 1] == blended[..i] + [entry];
    }
    assert blended[..|blended|] == blended;
    r := Ok(values);
  }

  /** The invariant of the pass over canonical vectors. */
  ghost predicate CarriedSoFar(blended: seq<Entry>, i: nat, previous: seq<Entry>, p: nat, contribution: seq<Entry>,
                               c: nat, scale: u64, values: seq<Entry>)
    requires i <= |blended| && p <= |previous| && c <= |contribution| && scale > 0
  {
    && CarriedFrom(blended[..i], previous, contribution, scale, values)
    && !AnyUncarriedOverflows(blended[..i], previous, contribution, scale)
    && Behind(previous, p, blended, i) && Behind(contribution, c, blended, i)
  }

  lemma {:induction false} CarryStep(blended: seq<Entry>, i: nat, previous: seq<Entry>, p0: nat, p: nat,
                                     contribution: seq<Entry>, c0: nat, c: nat, scale: u64,
                                     values: seq<Entry>, output: Result<Entry, ClampError>)
    requires Canonical(blended, previous, contribution) && i < |blended| && scale > 0
    requires p0 <= p <= |previous| && c0 <= c <= |contribution|
    requires CarriedSoFar(blended, i, previous, p0, contribution, c0, scale, values)
    requires (forall k :: p0 <= k < p ==> Less(previous[k].nodeId, blended[i].nodeId))
    requires p < |previous| ==> !Less(previous[p].nodeId, blended[i].nodeId)
    requires (forall k :: c0 <= k < c ==> Less(contribution[k].nodeId, blended[i].nodeId))
    requires c < |contribution| ==> !Less(contribution[c].nodeId, blended[i].nodeId)
    requires var id := blended[i].nodeId;
      if At(previous, p, id) && !At(contribution, c, id) then output == Ok(NewEntry(id, previous[p].reputation))
      else
        && (output.Err? <==> Overflows(blended[i].reputation, scale))
        && (output.Ok? ==> ClampedEntry(blended[i], scale, output.value))
    ensures output.Err? ==> AnyUncarriedOverflows(blended, previous, contribution, scale)
    ensures output.Ok? ==> CarriedSoFar(blended, i + 1, previous, p, contribution, c, scale, values + [output.value])
  {
    var entry, front, longer := blended[i], blended[..i], blended[..i + 1];
    assert longer[..|longer| - 1] == front && longer == front + [entry];
    assert CursorAt(previous, p, entry.nodeId) && CursorAt(contribution, c, entry.nodeId);
    CursorsDecide(entry, previous, p, contribution, c);
    StaysBehind(previous, p, blended, i);
    StaysBehind(contribution, c, blended, i);
    if output.Err? { PrefixUncarriedOverflows(longer, blended, previous, contribution, scale); }
  }

  /** Everything the cursor passed is smaller than every id still to come. */
  ghost predicate Behind(entries: seq<Entry>, index: nat, blended: seq<Entry>, i: nat)
    requires index <= |entries|
  {
    forall k, j :: 0 <= k < index && i <= j < |blended| ==> Less(entries[k].nodeId, blended[j].nodeId)
  }

  lemma StaysBehind(entries: seq<Entry>, index: nat, blended: seq<Entry>, i: nat)
    requires i < |blended| && Ordered(blended) && CursorAt(entries, index, blended[i].nodeId)
    ensures Behind(entries, index, blended, i + 1)
  {
    forall k, j | 0 <= k < index && i + 1 <= j < |blended| ensures Less(entries[k].nodeId, blended[j].nodeId) {
      LessTransitive(entries[k].nodeId, blended[i].nodeId, blended[j].nodeId);
    }
  }
}
