/** Fixed-point reputation values and vectors: crates/cordial-por/src/types.rs. */
module Por {
  import opened Basics
  import opened ByteOrder

  const U64: int := 0x1_0000_0000_0000_0000
  const U128: int := 0x1_0000_0000_0000_0000_0000_0000_0000_0000

  type u64 = x: int | 0 <= x < 0x1_0000_0000_0000_0000

  type u16 = x: int | 0 <= x < 0x1_0000

  datatype Entry = Entry(nodeId: Bytes, reputation: u64, retained: u64, excluded: bool)
  datatype Vector = Vector(round: u64, values: seq<Entry>)

  datatype Rating = Rating(round: u64, rater: Bytes, recipient: Bytes, score: u64, signature: Bytes,
                           interaction: Option<Bytes>)
  datatype NormalizedRating = NormalizedRating(rater: Bytes, recipient: Bytes, score: u64, normalized: nat)

  function NewEntry(nodeId: Bytes, reputation: u64): Entry {
    Entry(nodeId, reputation, 0, false)
  }

  // ---- canonical order ----

  predicate Less(a: Bytes, b: Bytes) {
    a != b && BytesLe(a, b)
  }

  lemma LessIsStrict(a: Bytes, b: Bytes)
    ensures Less(a, b) ==> !Less(b, a)
    ensures Less(a, b) || a == b || Less(b, a)
  {
    BytesTotal(a, b);
    if Less(a, b) && Less(b, a) { BytesAntisymmetric(a, b); }
  }

  lemma LessTransitive(a: Bytes, b: Bytes, c: Bytes)
    requires Less(a, b) && Less(b, c)
    ensures Less(a, c)
  {
    BytesTransitive(a, b, c);
    if a == c { BytesAntisymmetric(a, b); }
  }

  /** Node ids strictly increase. */
  ghost predicate Ordered(values: seq<Entry>) {
    forall i, j :: 0 <= i < j < |values| ==> Less(values[i].nodeId, values[j].nodeId)
  }

  /** Checking neighbours is enough to know the whole vector is strictly ordered. */
  lemma {:induction false} NeighboursSuffice(values: seq<Entry>, i: int, j: int)
    requires forall k :: 0 < k < |values| ==> Less(values[k - 1].nodeId, values[k].nodeId)
    requires 0 <= i < j < |values|
    ensures Less(values[i].nodeId, values[j].nodeId)
    decreases j
  {
    assert Less(values[j - 1].nodeId, values[j].nodeId);
    if i < j - 1 {
      NeighboursSuffice(values, i, j - 1);
      LessTransitive(values[i].nodeId, values[j - 1].nodeId, values[j].nodeId);
    }
  }

  ghost predicate HasNode(values: seq<Entry>, nodeId: Bytes) {
    exists i :: 0 <= i < |values| && values[i].nodeId == nodeId
  }

  /** The reputation recorded for a node, zero when there is none. */
  ghost function ReputationIn(values: seq<Entry>, nodeId: Bytes): u64 {
    if values == [] then 0
    else if values[0].nodeId == nodeId then values[0].reputation
    else ReputationIn(values[1..], nodeId)
  }

  lemma {:induction false} ReputationAt(values: seq<Entry>, i: int)
    requires Ordered(values) && 0 <= i < |values|
    ensures ReputationIn(values, values[i].nodeId) == values[i].reputation
  {
    if i > 0 {
      assert Less(values[0].nodeId, values[i].nodeId);
      forall a, b | 0 <= a < b < |values[1..]| ensures Less(values[1..][a].nodeId, values[1..][b].nodeId) {
        assert Less(values[a + 1].nodeId, values[b + 1].nodeId);
      }
      ReputationAt(values[1..], i - 1);
    }
  }

  /** Binary search: a hit is a hit in any vector, and over a canonical one a miss is a miss. */
  method BinarySearch(values: seq<Entry>, node: Bytes) returns (r: Option<nat>)
    ensures r.Some? ==> r.value < |values| && values[r.value].nodeId == node
    ensures Ordered(values) ==> (r.Some? <==> HasNode(values, node))
  {
    var low, high := 0, |values|;
    while low < high
      invariant 0 <= low <= high <= |values|
      invariant Ordered(values) ==> forall k :: 0 <= k < low ==> Less(values[k].nodeId, node)
      invariant Ordered(values) ==> forall k :: high <= k < |values| ==> Less(node, values[k].nodeId)
    {
      var middle := (low + high) / 2;
      var found := values[middle].nodeId;
      LessIsStrict(found, node);
      if found == node { return Some(middle); }
      if Ordered(values) { SplitOrdered(values, middle, node); }
      if Less(found, node) { low := middle + 1; } else { high := middle; }
    }
    assert Ordered(values) ==> forall k :: 0 <= k < |values| ==> values[k].nodeId != node;
    r := None;
  }

  /** Everything before a smaller entry is smaller, everything after a larger one is larger. */
  lemma SplitOrdered(values: seq<Entry>, middle: int, node: Bytes)
    requires Ordered(values) && 0 <= middle < |values|
    ensures Less(values[middle].nodeId, node) ==> forall k :: 0 <= k <= middle ==> Less(values[k].nodeId, node)
    ensures Less(node, values[middle].nodeId) ==>
      forall k :: middle <= k < |values| ==> Less(node, values[k].nodeId)
  {
    if Less(values[middle].nodeId, node) {
      forall k | 0 <= k < middle ensures Less(values[k].nodeId, node) {
        LessTransitive(values[k].nodeId, values[middle].nodeId, node);
      }
    }
    if Less(node, values[middle].nodeId) {
      forall k | middle < k < |values| ensures Less(node, values[k].nodeId) {
        LessTransitive(node, values[middle].nodeId, values[k].nodeId);
      }
    }
  }
}
