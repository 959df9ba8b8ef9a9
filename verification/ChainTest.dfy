/** Closure sizes, the sorted chain test and the pairwise conflict scan over a built closure. */
module ChainTest {
  import opened ClosureMatrix
  import opened Reachability
  import opened Sorting
  import opened Words

  // ---- row sizes ----

  function SumOnes(ws: seq<Word>): nat {
    if ws == [] then 0 else SumOnes(ws[..|ws| - 1]) + CountOnes(ws[|ws| - 1])
  }

  /** Number of bits set in row `a`. */
  function Count(c: Closure, a: nat): nat
    requires (a + 1) * c.words <= |c.bits|
  {
    SumOnes(c.bits[a * c.words..(a + 1) * c.words])
  }

  lemma {:induction false} PrefixSize(c: Closure, n: nat, a: nat, start: nat, w: nat)
    requires Fits(c.bits, c.words, n) && a < n && w <= c.words && start == Cell(c.words, a, 0) && start + w <= |c.bits|
    ensures SumOnes(c.bits[start..start + w]) == |Below(Row(c.bits, c.words, a), w)|
  {
    if w == 0 {
      assert Below(Row(c.bits, c.words, a), 0) == {};
    } else {
      PrefixSize(c, n, a, start, w - 1);
      assert c.bits[start..start + w][..w - 1] == c.bits[start..start + (w - 1)];
      NextWord(c, n, a, w - 1);
    }
  }

  lemma NextWord(c: Closure, n: nat, a: nat, w: nat)
    requires Fits(c.bits, c.words, n) && a < n && w < c.words && Cell(c.words, a, w) < |c.bits|
    ensures var row := Row(c.bits, c.words, a);
      |Below(row, w + 1)| == |Below(row, w)| + CountOnes(c.bits[Cell(c.words, a, w)])
  {
    var row := Row(c.bits, c.words, a);
    var word := c.bits[Cell(c.words, a, w)];
    CountOnesIsCardinality(word);
    var part := set b | b in row && b / 64 == w;
    LaneBits(c, n, a, w, part);
    assert Below(row, w + 1) == Below(row, w) + part && Below(row, w) !! part;
  }

  lemma LaneBits(c: Closure, n: nat, a: nat, w: nat, part: set<int>)
    requires Fits(c.bits, c.words, n) && a < n && w < c.words && Cell(c.words, a, w) < |c.bits|
    requires part == set b | b in Row(c.bits, c.words, a) && b / 64 == w
    ensures |part| == |Ones(c.bits[Cell(c.words, a, w)], 64)|
  {
    var ones: set<int> := Ones(c.bits[Cell(c.words, a, w)], 64);
    var shifted := set k | k in ones :: k + 64 * w;
    forall b ensures b in part <==> b in shifted {
      LaneBit(c, n, a, w, b);
      assert b in shifted <==> b - 64 * w in ones by {
        if b - 64 * w in ones { assert (b - 64 * w) + 64 * w in shifted; }
      }
    }
    assert part == shifted;
    ShiftKeepsSize(ones, shifted, 64 * w);
  }

  lemma LaneBit(c: Closure, n: nat, a: nat, w: nat, b: int)
    requires Fits(c.bits, c.words, n) && a < n && w < c.words && Cell(c.words, a, w) < |c.bits|
    ensures b in Row(c.bits, c.words, a) && b / 64 == w <==> b - 64 * w in Ones(c.bits[Cell(c.words, a, w)], 64)
  {
    if 0 <= b - 64 * w < 64 {
      assert b / 64 == w && b % 64 == b - 64 * w;
    }
  }

  lemma CountIsRowSize(c: Closure, n: nat, a: nat)
    requires Fits(c.bits, c.words, n) && a < n
    ensures (a + 1) * c.words <= |c.bits|
    ensures Count(c, a) == |Rows(c.bits, c.words, n)[a]|
  {
    CellInside(c.words, n, a, c.words - 1);
    assert (a + 1) * c.words == a * c.words + c.words;
    PrefixSize(c, n, a, Cell(c.words, a, 0), c.words);
    RowAt(c.bits, c.words, n, a);
    assert Below(Row(c.bits, c.words, a), c.words) == Row(c.bits, c.words, a);
  }

  // ---- observation is reachability ----

  /** Over a graph without proper cycles the matrix answers reachability. */
  lemma ObservesIsReaches(c: Closure, g: Graph<int>, n: nat, a: nat, b: nat)
    requires BuiltOver(c, g, n) && a < n && b < n
    ensures c.Observes(a, b) ==> Reaches(g, a, b)
    ensures Antisymmetric(g) ==> (c.Observes(a, b) <==> Reaches(g, a, b))
  {
    var rows := Rows(c.bits, c.words, n);
    RowAt(c.bits, c.words, n, a);
    assert b < 64 * c.words;
    assert c.Observes(a, b) <==> b in rows[a];
    if Antisymmetric(g) { assert RowFull(g, a, rows[a]); }
  }

  /** An ancestor's closure is strictly smaller. */
  lemma {:induction false} AncestorIsSmaller(c: Closure, g: Graph<int>, n: nat, a: nat, b: nat)
    requires BuiltOver(c, g, n) && Antisymmetric(g) && a < n && b < n && a != b && Reaches(g, a, b)
    ensures Size(c, b) < Size(c, a)
  {
    var rows := Rows(c.bits, c.words, n);
    CountIsRowSize(c, n, a);
    CountIsRowSize(c, n, b);
    assert RowFull(g, a, rows[a]) && RowFull(g, b, rows[b]);
    ReachesSelf(g, a);
    forall x | x in rows[b] ensures x in rows[a] {
      ReachesThenReaches(g, a, b, x);
    }
    assert a in rows[a] && a !in rows[b];
    ProperSubsetIsSmaller(rows[b], rows[a]);
  }

  lemma ProperSubsetIsSmaller(s: set<int>, t: set<int>)
    requires s < t
    ensures |s| < |t|
  {
    assert t == s + (t - s) && t - s != {};
  }

  // ---- the chain test ----

  function Size(c: Closure, a: int): nat {
    if 0 <= a && (a + 1) * c.words <= |c.bits| then Count(c, a) else 0
  }

  predicate KeyLe(c: Closure, x: int, y: int) {
    Size(c, x) < Size(c, y) || (Size(c, x) == Size(c, y) && x <= y)
  }

  ghost predicate AllComparable(g: Graph<int>, members: seq<int>) {
    forall x, y :: x in members && y in members ==> Comparable(g, x, y)
  }

  ghost predicate Nodes(members: seq<int>, n: nat) {
    forall x :: x in members ==> 0 <= x < n
  }

  /** Neighbours that observe each other make every later member reach every earlier one. */
  lemma {:induction false} NeighboursChain(g: Graph<int>, s: seq<int>, i: nat, j: nat)
    requires i <= j < |s|
    requires forall k {:trigger s[k]} :: i < k <= j ==> Reaches(g, s[k], s[k - 1])
    ensures Reaches(g, s[j], s[i])
  {
    if i == j {
      ReachesSelf(g, s[i]);
    } else {
      NeighboursChain(g, s, i, j - 1);
      assert Reaches(g, s[j], s[j - 1]);
      ReachesThenReaches(g, s[j], s[j - 1], s[i]);
    }
  }

  lemma ChainIsComparable(g: Graph<int>, s: seq<int>)
    requires forall k {:trigger s[k]} :: 0 < k < |s| ==> Reaches(g, s[k], s[k - 1])
    ensures AllComparable(g, s)
  {
    forall x, y | x in s && y in s ensures Comparable(g, x, y) {
      var i :| 0 <= i < |s| && s[i] == x;
      var j :| 0 <= j < |s| && s[j] == y;
      if i <= j { NeighboursChain(g, s, i, j); } else { NeighboursChain(g, s, j, i); }
    }
  }

  lemma KeyOrder(c: Closure)
    ensures TotalPreorder((x, y) => KeyLe(c, x, y))
  {}

  /**
   * Sorts by closure size and compares neighbours only. A positive answer is always right;
   * over a graph without proper cycles and distinct members so is a negative one.
   */
  method IsChain(c: Closure, n: nat, members: seq<int>, ghost g: Graph<int>) returns (chain: bool, sorted: seq<int>)
    requires BuiltOver(c, g, n) && Nodes(members, n)
    ensures multiset(sorted) == multiset(members)
    ensures chain ==> AllComparable(g, members)
    ensures Antisymmetric(g) && Distinct(members) ==> (chain <==> AllComparable(g, members))
  {
    var le := (x, y) => KeyLe(c, x, y);
    sorted := Sort(le, members);
    SortKeeps(le, members);
    KeyOrder(c);
    SortSorted(le, members);
    var i := 1;
    while i < |sorted|
      invariant 1 <= i
      invariant forall k {:trigger sorted[k]} :: 0 < k < i && k < |sorted| ==> Reaches(g, sorted[k], sorted[k - 1])
    {
      assert sorted[i - 1] in sorted && sorted[i] in sorted;
      ObservesIsReaches(c, g, n, sorted[i], sorted[i - 1]);
      if sorted[i - 1] == sorted[i] || !c.Observes(sorted[i], sorted[i - 1]) {
        chain := false;
        if Antisymmetric(g) && Distinct(members) {
          DistinctFromMultiset(members, sorted);
          BrokenNeighbours(c, g, n, sorted, i);
        }
        return;
      }
      i := i + 1;
    }
    chain := true;
    ChainIsComparable(g, sorted);
  }

  /** A neighbour pair that fails the test is a genuinely incomparable pair. */
  lemma {:induction false} BrokenNeighbours(c: Closure, g: Graph<int>, n: nat, sorted: seq<int>, i: nat)
    requires BuiltOver(c, g, n) && Antisymmetric(g) && Nodes(sorted, n) && Distinct(sorted)
    requires Sorted((x, y) => KeyLe(c, x, y), sorted)
    requires 0 < i < |sorted| && sorted[i - 1] in sorted && sorted[i] in sorted
    requires !c.Observes(sorted[i], sorted[i - 1])
    ensures !Comparable(g, sorted[i], sorted[i - 1])
  {
    ObservesIsReaches(c, g, n, sorted[i], sorted[i - 1]);
    assert KeyLe(c, sorted[i - 1], sorted[i]);
    if Reaches(g, sorted[i - 1], sorted[i]) {
      AncestorIsSmaller(c, g, n, sorted[i - 1], sorted[i]);
    }
  }

  // ---- the pairwise scan ----

  predicate Conflicts(c: Closure, a: int, b: int) {
    0 <= a && 0 <= b && b != a && !c.Observes(a, b) && !c.Observes(b, a)
  }

  /**
   * For each member, the members incomparable with it; members without any are left out.
   * The pairs are keyed by member, as the caller stores them.
   */
  method IncomparablePairs(c: Closure, members: seq<int>) returns (out: map<int, seq<int>>)
    requires forall x :: x in members ==> 0 <= x
    ensures forall a ::
      a in out ==> a in members && out[a] != [] && forall b :: b in out[a] <==> b in members && Conflicts(c, a, b)
    ensures forall a, b :: a in members && b in members && Conflicts(c, a, b) ==> a in out
  {
    out := map[];
    for i := 0 to |members|
      invariant forall a :: a in out ==>
        a in members && out[a] != [] && forall b :: b in out[a] <==> b in members && Conflicts(c, a, b)
      invariant forall a, b :: a in members[..i] && b in members && Conflicts(c, a, b) ==> a in out
    {
      var a := members[i];
      assert a in members;
      var conflicts := ConflictsAmong(c, a, members);
      assert members[..i + 1] == members[..i] + [a];
      if conflicts != [] {
        out := out[a := conflicts];
      } else {
        assert forall b :: b in members && Conflicts(c, a, b) ==> b in conflicts;
      }
    }
    assert members[..|members|] == members;
  }

  method ConflictsAmong(c: Closure, a: int, members: seq<int>) returns (conflicts: seq<int>)
    requires 0 <= a && forall x :: x in members ==> 0 <= x
    ensures forall b :: b in conflicts <==> b in members && Conflicts(c, a, b)
  {
    conflicts := [];
    for j := 0 to |members|
      invariant forall b :: b in conflicts <==> b in members[..j] && Conflicts(c, a, b)
    {
      var b := members[j];
      assert b in members;
      assert members[..j + 1] == members[..j] + [b];
      if b != a && !c.Observes(a, b) && !c.Observes(b, a) {
        conflicts := conflicts + [b];
      }
    }
    assert members[..|members|] == members;
  }
}
