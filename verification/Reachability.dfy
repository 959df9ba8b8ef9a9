/** Finite directed graphs given by their successor sets, and reachability in them. */
module Reachability {

  type Graph<T> = map<T, set<T>>

  ghost predicate Edge<T>(g: Graph<T>, a: T, b: T) {
    a in g && b in g[a]
  }

  /** `p` lists the nodes visited after `a`, the last of them `b`. */
  ghost predicate Path<T>(g: Graph<T>, a: T, b: T, p: seq<T>) {
    if p == [] then a == b else Edge(g, a, p[0]) && Path(g, p[0], b, p[1..])
  }

  ghost predicate Reaches<T(!new)>(g: Graph<T>, a: T, b: T) {
    exists p :: Path(g, a, b, p)
  }

  /** No two distinct nodes reach each other: self-loops are the only cycles. */
  ghost predicate Antisymmetric<T(!new)>(g: Graph<T>) {
    forall a, b :: Reaches(g, a, b) && Reaches(g, b, a) ==> a == b
  }

  /** No cycle at all, self-loops included. */
  ghost predicate Acyclic<T(!new)>(g: Graph<T>) {
    forall a, b :: Edge(g, a, b) ==> !Reaches(g, b, a)
  }

  ghost predicate Comparable<T(!new)>(g: Graph<T>, a: T, b: T) {
    Reaches(g, a, b) || Reaches(g, b, a)
  }

  ghost predicate ClosedUnder<T(!new)>(g: Graph<T>, s: set<T>) {
    forall a, b :: a in s && Edge(g, a, b) ==> b in s
  }

  lemma ReachesSelf<T(!new)>(g: Graph<T>, a: T)
    ensures Reaches(g, a, a)
  {
    assert Path(g, a, a, []);
  }

  lemma EdgeThenReaches<T(!new)>(g: Graph<T>, a: T, b: T, c: T)
    requires Edge(g, a, b) && Reaches(g, b, c)
    ensures Reaches(g, a, c)
  {
    var p :| Path(g, b, c, p);
    assert ([b] + p)[1..] == p;
    assert Path(g, a, c, [b] + p);
  }

  lemma EdgeReaches<T(!new)>(g: Graph<T>, a: T, b: T)
    requires Edge(g, a, b)
    ensures Reaches(g, a, b)
  {
    ReachesSelf(g, b);
    EdgeThenReaches(g, a, b, b);
  }

  lemma ReachesThenReaches<T(!new)>(g: Graph<T>, a: T, b: T, c: T)
    requires Reaches(g, a, b) && Reaches(g, b, c)
    ensures Reaches(g, a, c)
  {
    var p :| Path(g, a, b, p);
    PathThenReaches(g, a, b, c, p);
  }

  lemma {:induction false} PathThenReaches<T(!new)>(g: Graph<T>, a: T, b: T, c: T, p: seq<T>)
    requires Path(g, a, b, p) && Reaches(g, b, c)
    ensures Reaches(g, a, c)
  {
    if p != [] {
      PathThenReaches(g, p[0], b, c, p[1..]);
      EdgeThenReaches(g, a, p[0], c);
    }
  }

  lemma ReachesThenEdge<T(!new)>(g: Graph<T>, a: T, b: T, c: T)
    requires Reaches(g, a, b) && Edge(g, b, c)
    ensures Reaches(g, a, c)
  {
    EdgeReaches(g, b, c);
    ReachesThenReaches(g, a, b, c);
  }

  /** A node that reaches a different one does so through a successor other than itself. */
  lemma FirstStep<T(!new)>(g: Graph<T>, a: T, c: T) returns (b: T)
    requires Reaches(g, a, c) && a != c
    ensures b != a && Edge(g, a, b) && Reaches(g, b, c)
  {
    var p :| Path(g, a, c, p);
    while p[0] == a
      invariant p != [] && Path(g, a, c, p)
      decreases |p|
    {
      p := p[1..];
    }
    b := p[0];
    assert Path(g, b, c, p[1..]);
  }

  /** A set closed under edges contains everything its members reach. */
  lemma StaysInside<T(!new)>(g: Graph<T>, s: set<T>, a: T, b: T)
    requires ClosedUnder(g, s) && a in s && Reaches(g, a, b)
    ensures b in s
  {
    var p :| Path(g, a, b, p);
    PathStaysInside(g, s, a, b, p);
  }

  lemma {:induction false} PathStaysInside<T(!new)>(g: Graph<T>, s: set<T>, a: T, b: T, p: seq<T>)
    requires ClosedUnder(g, s) && a in s && Path(g, a, b, p)
    ensures b in s
  {
    if p != [] {
      PathStaysInside(g, s, p[0], b, p[1..]);
    }
  }

  ghost predicate RankedBy<T(!new)>(g: Graph<T>, rank: map<T, nat>) {
    forall a, b :: Edge(g, a, b) ==> a in rank && b in rank && rank[b] < rank[a]
  }

  /** A rank that strictly drops along edges rules out every cycle. */
  lemma RankedIsAcyclic<T(!new)>(g: Graph<T>, rank: map<T, nat>)
    requires RankedBy(g, rank)
    ensures Acyclic(g)
  {
    forall a, b | Edge(g, a, b) ensures !Reaches(g, b, a) {
      if Reaches(g, b, a) {
        var p :| Path(g, b, a, p);
        RankDrops(g, rank, b, a, p);
      }
    }
  }

  lemma {:induction false} RankDrops<T(!new)>(g: Graph<T>, rank: map<T, nat>, a: T, b: T, p: seq<T>)
    requires RankedBy(g, rank) && a in rank && Path(g, a, b, p)
    ensures b in rank && rank[b] <= rank[a]
  {
    if p != [] {
      RankDrops(g, rank, p[0], b, p[1..]);
    }
  }

  lemma AcyclicIsAntisymmetric<T(!new)>(g: Graph<T>)
    requires Acyclic(g)
    ensures Antisymmetric(g)
  {
    forall a, b | Reaches(g, a, b) && Reaches(g, b, a) ensures a == b {
      if a != b {
        var c := FirstStep(g, a, b);
        ReachesThenReaches(g, c, b, a);
      }
    }
  }

  /** `ids` names the nodes of `h` by their positions, edge for edge. */
  ghost predicate Renumbers<T(!new)>(ids: seq<T>, g: Graph<T>, h: Graph<int>) {
    && (forall i, j :: 0 <= i < j < |ids| ==> ids[i] != ids[j])
    && (forall a, b :: Edge(g, a, b) ==> a in ids && b in ids)
    && (forall i, j :: Edge(h, i, j) ==> 0 <= i < |ids| && 0 <= j < |ids|)
    && (forall i, j :: 0 <= i < |ids| && 0 <= j < |ids| ==> (Edge(h, i, j) <==> Edge(g, ids[i], ids[j])))
  }

  lemma {:induction false} RenumberForward<T(!new)>(ids: seq<T>, g: Graph<T>, h: Graph<int>, i: int, j: int,
                                                    p: seq<int>)
    requires Renumbers(ids, g, h) && 0 <= i < |ids| && 0 <= j < |ids| && Path(h, i, j, p)
    ensures Reaches(g, ids[i], ids[j])
    decreases p
  {
    if p == [] {
      ReachesSelf(g, ids[i]);
    } else {
      assert Edge(h, i, p[0]);
      RenumberForward(ids, g, h, p[0], j, p[1..]);
      EdgeThenReaches(g, ids[i], ids[p[0]], ids[j]);
    }
  }

  lemma {:induction false} RenumberBackward<T(!new)>(ids: seq<T>, g: Graph<T>, h: Graph<int>, i: int, j: int, p: seq<T>)
    requires Renumbers(ids, g, h) && 0 <= i < |ids| && 0 <= j < |ids| && Path(g, ids[i], ids[j], p)
    ensures Reaches(h, i, j)
    decreases p
  {
    if p == [] {
      ReachesSelf(h, i);
    } else {
      assert Edge(g, ids[i], p[0]);
      var k :| 0 <= k < |ids| && ids[k] == p[0];
      RenumberBackward(ids, g, h, k, j, p[1..]);
      EdgeThenReaches(h, i, k, j);
    }
  }

  lemma RenumberReaches<T(!new)>(ids: seq<T>, g: Graph<T>, h: Graph<int>, i: int, j: int)
    requires Renumbers(ids, g, h) && 0 <= i < |ids| && 0 <= j < |ids|
    ensures Reaches(h, i, j) <==> Reaches(g, ids[i], ids[j])
  {
    if Reaches(h, i, j) {
      var p :| Path(h, i, j, p);
      RenumberForward(ids, g, h, i, j, p);
    }
    if Reaches(g, ids[i], ids[j]) {
      var p :| Path(g, ids[i], ids[j], p);
      RenumberBackward(ids, g, h, i, j, p);
    }
  }

  lemma RenumberAntisymmetric<T(!new)>(ids: seq<T>, g: Graph<T>, h: Graph<int>)
    requires Renumbers(ids, g, h)
    ensures Antisymmetric(g) <==> Antisymmetric(h)
  {
    if Antisymmetric(g) {
      forall i, j | Reaches(h, i, j) && Reaches(h, j, i) ensures i == j {
        if i != j {
          var x := FirstStep(h, i, j);
          var y := FirstStep(h, j, i);
          RenumberReaches(ids, g, h, i, j);
          RenumberReaches(ids, g, h, j, i);
        }
      }
    }
    if Antisymmetric(h) {
      forall a, b | Reaches(g, a, b) && Reaches(g, b, a) ensures a == b {
        if a != b {
          var x := FirstStep(g, a, b);
          var y := FirstStep(g, b, a);
          var i :| 0 <= i < |ids| && ids[i] == a;
          var j :| 0 <= j < |ids| && ids[j] == b;
          RenumberReaches(ids, g, h, i, j);
          RenumberReaches(ids, g, h, j, i);
        }
      }
    }
  }
}
