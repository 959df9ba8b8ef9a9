/**
 * The generation-stamped ancestor index of crates/cordial-miners-core/src/ancestor_index.rs:
 * positions for stored identities, the closure over them, and the sparse table of conflicts.
 */
module AncestorIndexing {
  import opened Basics
  import opened ChainTest
  import opened ClosureMatrix
  import opened Lace
  import opened Reachability
  import opened Sorting

  datatype AncestorIndex = AncestorIndex(
    generation: nat,
    pos: map<Identity, int>,
    closure: Closure,
    conflicts: map<int, seq<int>>)
  {
    /** Definition 18 answered from the index. */
    predicate Approves(observer: int, target: int)
      requires 0 <= observer && 0 <= target
      requires forall s :: Listed(conflicts, target, s) ==> 0 <= s
    {
      && closure.Observes(observer, target)
      && (target in conflicts ==> forall s :: s in conflicts[target] ==>
        assert Listed(conflicts, target, s); !closure.Observes(observer, s))
    }
  }

  // ---- what an index means ----

  ghost predicate Positions(pos: map<Identity, int>, blocks: Blocks, ids: seq<Identity>) {
    && Distinct(ids) && |ids| == |blocks|
    && (forall id :: id in blocks <==> id in ids)
    && pos.Keys == blocks.Keys
    && (forall i :: 0 <= i < |ids| ==> ids[i] in pos && pos[ids[i]] == i)
  }

  /** Definition 18 of the paper, read off the pointed relation. */
  ghost predicate Definition18(blocks: Blocks, g: Graph<Identity>, observer: Identity, target: Identity) {
    && Reaches(g, observer, target)
    && forall s :: s in blocks && s.creator == target.creator && !Comparable(g, s, target) ==> !Reaches(g, observer, s)
  }

  /** Two blocks of one creator, neither observing the other. */
  ghost predicate Fork(blocks: Blocks, g: Graph<Identity>, a: Identity, b: Identity) {
    a in blocks && b in blocks && a.creator == b.creator && !Comparable(g, a, b)
  }

  predicate Listed(conflicts: map<int, seq<int>>, t: int, s: int) {
    t in conflicts && s in conflicts[t]
  }

  /** The table lists, for every block with an incomparable sibling and no other, exactly those siblings. */
  ghost predicate ConflictTable(conflicts: map<int, seq<int>>, blocks: Blocks, g: Graph<Identity>, ids: seq<Identity>) {
    && (forall t, s {:trigger Listed(conflicts, t, s)} :: Listed(conflicts, t, s) ==>
        0 <= t < |ids| && 0 <= s < |ids| && Fork(blocks, g, ids[t], ids[s]))
    && (forall t, s {:trigger Listed(conflicts, t, s)} ::
        0 <= t < |ids| && 0 <= s < |ids| && Fork(blocks, g, ids[t], ids[s]) ==> Listed(conflicts, t, s))
    && (forall t :: t in conflicts ==> 0 <= t < |ids| && conflicts[t] != [])
  }

  /** `index` was built from exactly these blocks and this checkpoint. */
  ghost predicate IndexFor(index: AncestorIndex, blocks: Blocks, checkpoint: Option<Identity>) {
    exists ids :: Indexes(index, blocks, checkpoint, ids)
  }

  ghost predicate Indexes(index: AncestorIndex, blocks: Blocks, checkpoint: Option<Identity>, ids: seq<Identity>) {
    var g := LaceGraph(blocks, checkpoint);
    && Positions(index.pos, blocks, ids)
    && (forall i, j {:trigger index.closure.Observes(i, j)} ::
        0 <= i < |ids| && 0 <= j < |ids| && index.closure.Observes(i, j) ==> Reaches(g, ids[i], ids[j]))
    && (forall t, s {:trigger Listed(index.conflicts, t, s)} :: Listed(index.conflicts, t, s) ==> 0 <= t && 0 <= s)
    && (Antisymmetric(g) ==>
        && (forall i, j {:trigger index.closure.Observes(i, j)} ::
            0 <= i < |ids| && 0 <= j < |ids| ==> (index.closure.Observes(i, j) <==> Reaches(g, ids[i], ids[j])))
        && ConflictTable(index.conflicts, blocks, g, ids))
  }

  // ---- the lookup tables of a build ----

  method NumberIds(ids: seq<Identity>, blocks: Blocks) returns (pos: map<Identity, int>)
    requires Distinct(ids) && |ids| == |blocks| && forall id :: id in ids <==> id in blocks
    ensures Positions(pos, blocks, ids)
  {
    pos := map[];
    for i := 0 to |ids|
      invariant forall id :: id in pos <==> id in ids[..i]
      invariant forall j :: 0 <= j < i ==> ids[j] in pos && pos[ids[j]] == j
    {
      assert ids[..i + 1] == ids[..i] + [ids[i]];
      pos := pos[ids[i] := i];
    }
    assert ids[..|ids|] == ids;
    assert pos.Keys == blocks.Keys;
  }

  type Unsigned2 = (Hash, Bytes)

  function KeyOf(id: Identity): Unsigned2 {
    (id.hash, id.creator)
  }

  ghost predicate Occurs(ids: seq<Identity>, k: Unsigned2, i: int) {
    0 <= i < |ids| && KeyOf(ids[i]) == k
  }

  /** Absent keys do not occur, a position is the only occurrence, and an emptied slot repeats. */
  ghost predicate Slot(table: map<Unsigned2, Option<int>>, ids: seq<Identity>, k: Unsigned2) {
    if k !in table then forall i :: !Occurs(ids, k, i)
    else match table[k]
      case Some(i) => Occurs(ids, k, i) && forall j :: Occurs(ids, k, j) ==> j == i
      case None => exists i, j :: i != j && Occurs(ids, k, i) && Occurs(ids, k, j)
  }

  ghost predicate UnsignedTable(table: map<Unsigned2, Option<int>>, ids: seq<Identity>) {
    forall k :: Slot(table, ids, k)
  }

  lemma FillStep(table: map<Unsigned2, Option<int>>, table': map<Unsigned2, Option<int>>, ids: seq<Identity>,
                 x: Identity, k: Unsigned2)
    requires Slot(table, ids, k)
    requires table' == table[KeyOf(x) := if KeyOf(x) in table then None else Some(|ids|)]
    ensures Slot(table', ids + [x], k)
  {
    var ids' := ids + [x];
    assert forall i :: Occurs(ids', k, i) <==> Occurs(ids, k, i) || (i == |ids| && k == KeyOf(x));
    if k == KeyOf(x) {
      assert Occurs(ids', k, |ids|);
      if k in table && table[k].Some? {
        assert Occurs(ids', k, table[k].value) && table[k].value != |ids|;
      }
    }
  }

  method FillUnsigned(ids: seq<Identity>) returns (table: map<Unsigned2, Option<int>>)
    ensures UnsignedTable(table, ids)
  {
    table := map[];
    for i := 0 to |ids|
      invariant UnsignedTable(table, ids[..i])
    {
      ghost var was := table;
      var k := KeyOf(ids[i]);
      table := table[k := if k in table then None else Some(i)];
      ghost var next := ids[..i] + [ids[i]];
      assert ids[..i + 1] == next;
      forall q ensures Slot(table, next, q) { FillStep(was, table, ids[..i], ids[i], q); }
    }
    assert ids[..|ids|] == ids;
  }

  /** The build's own reference resolution. */
  function ResolveAt(pos: map<Identity, int>, table: map<Unsigned2, Option<int>>, reference: Identity): Option<int> {
    if reference in pos then Some(pos[reference])
    else if reference.signature != [] then None
    else if KeyOf(reference) in table then table[KeyOf(reference)]
    else None
  }

  /** It agrees with the store's resolution. */
  lemma ResolveAtAgrees(pos: map<Identity, int>, table: map<Unsigned2, Option<int>>, blocks: Blocks,
                        ids: seq<Identity>, reference: Identity)
    requires Positions(pos, blocks, ids) && UnsignedTable(table, ids)
    ensures var r := ResolveAt(pos, table, reference);
      (r.Some? <==> Resolves(blocks, reference))
      && (r.Some? ==> 0 <= r.value < |ids| && Resolve(blocks, reference) == Some(ids[r.value]))
  {
    var k := KeyOf(reference);
    assert Slot(table, ids, k);
    if reference in pos {
      var i :| 0 <= i < |ids| && ids[i] == reference;
    } else if reference.signature == [] {
      forall t ensures t in blocks && SameConsensus(t, reference) <==> exists i :: Occurs(ids, k, i) && ids[i] == t {
        if t in blocks && SameConsensus(t, reference) {
          var i :| 0 <= i < |ids| && ids[i] == t;
          assert Occurs(ids, k, i);
        }
      }
      SlotResolves(pos, table, blocks, ids, reference);
    }
  }

  lemma SlotResolves(pos: map<Identity, int>, table: map<Unsigned2, Option<int>>, blocks: Blocks, ids: seq<Identity>,
                     reference: Identity)
    requires Distinct(ids) && reference !in blocks && reference !in pos && reference.signature == []
    requires Slot(table, ids, KeyOf(reference))
    requires forall t ::
      t in blocks && SameConsensus(t, reference) <==> exists i :: Occurs(ids, KeyOf(reference), i) && ids[i] == t
    ensures var r := ResolveAt(pos, table, reference);
      (r.Some? <==> Resolves(blocks, reference))
      && (r.Some? ==> 0 <= r.value < |ids| && Resolve(blocks, reference) == Some(ids[r.value]))
  {
    var k := KeyOf(reference);
    if k in table && table[k].Some? {
      var t := ids[table[k].value];
      assert OnlyMatch(blocks, reference, t);
      assert ResolvesTo(blocks, reference, t);
    } else if Resolves(blocks, reference) {
      var t := Resolve(blocks, reference).value;
      assert ResolvesTo(blocks, reference, t);
      if k in table {
        var i, j :| i != j && Occurs(ids, k, i) && Occurs(ids, k, j);
        var a, b := ids[i], ids[j];
        assert a in blocks && SameConsensus(a, reference) && b in blocks && SameConsensus(b, reference);
      }
    }
  }

  /** The positions the references in `refs` resolve to. */
  method ResolveAll(pos: map<Identity, int>, table: map<Unsigned2, Option<int>>, refs: set<Identity>)
    returns (out: seq<int>)
    ensures forall j :: j in out <==> exists p :: p in refs && ResolveAt(pos, table, p) == Some(j)
  {
    var order := Enumerate(refs);
    out := [];
    for i := 0 to |order|
      invariant forall j :: j in out <==> exists p :: p in order[..i] && ResolveAt(pos, table, p) == Some(j)
    {
      assert order[..i + 1] == order[..i] + [order[i]];
      var r := ResolveAt(pos, table, order[i]);
      if r.Some? { out := out + [r.value]; }
      assert order[i] in order[..i + 1];
    }
    assert order[..|order|] == order;
  }

  // ---- the graph handed to the closure ----

  /** Row `i` of the build lists what the block at `i` points at, and stops at the checkpoint. */
  ghost predicate Lists(preds: seq<seq<int>>, stop: seq<bool>, blocks: Blocks, checkpoint: Option<Identity>,
                        ids: seq<Identity>)
  {
    && |preds| == |stop|
    && |preds| <= |ids|
    && forall i :: 0 <= i < |preds| ==>
        ids[i] in blocks && stop[i] == (checkpoint == Some(ids[i])) && PointsAt(preds[i], blocks, ids[i], ids)
  }

  ghost predicate PointsAt(row: seq<int>, blocks: Blocks, id: Identity, ids: seq<Identity>)
    requires id in blocks
  {
    && (forall j :: j in row ==> 0 <= j < |ids| && ids[j] in Targets(blocks, blocks[id].preds))
    && (forall j :: 0 <= j < |ids| && ids[j] in Targets(blocks, blocks[id].preds) ==> j in row)
  }

  method ListRow(pos: map<Identity, int>, table: map<Unsigned2, Option<int>>, blocks: Blocks, id: Identity,
                 ghost ids: seq<Identity>)
    returns (row: seq<int>)
    requires Positions(pos, blocks, ids) && UnsignedTable(table, ids) && id in blocks
    ensures PointsAt(row, blocks, id, ids)
  {
    var refs := blocks[id].preds;
    row := ResolveAll(pos, table, refs);
    forall j | j in row ensures 0 <= j < |ids| && ids[j] in Targets(blocks, refs) {
      var p :| p in refs && ResolveAt(pos, table, p) == Some(j);
      ResolveAtAgrees(pos, table, blocks, ids, p);
    }
    forall j | 0 <= j < |ids| && ids[j] in Targets(blocks, refs) ensures j in row {
      var p :| p in refs && Resolves(blocks, p) && Resolve(blocks, p).value == ids[j];
      ResolveAtAgrees(pos, table, blocks, ids, p);
      assert ResolveAt(pos, table, p) == Some(j);
    }
  }

  lemma ListOne(preds: seq<seq<int>>, stop: seq<bool>, blocks: Blocks, checkpoint: Option<Identity>,
                ids: seq<Identity>, row: seq<int>)
    requires Lists(preds, stop, blocks, checkpoint, ids) && |preds| < |ids| && ids[|preds|] in blocks
    requires PointsAt(row, blocks, ids[|preds|], ids)
    ensures Lists(preds + [row], stop + [checkpoint == Some(ids[|preds|])], blocks, checkpoint, ids)
  {}

  method ListAll(pos: map<Identity, int>, table: map<Unsigned2, Option<int>>, blocks: Blocks,
                 checkpoint: Option<Identity>, ids: seq<Identity>)
    returns (preds: seq<seq<int>>, stop: seq<bool>)
    requires Positions(pos, blocks, ids) && UnsignedTable(table, ids)
    ensures |preds| == |ids| && Lists(preds, stop, blocks, checkpoint, ids)
  {
    preds, stop := [], [];
    for i := 0 to |ids|
      invariant |preds| == i && Lists(preds, stop, blocks, checkpoint, ids)
    {
      assert ids[i] in ids;
      var row := ListRow(pos, table, blocks, ids[i], ids);
      ListOne(preds, stop, blocks, checkpoint, ids, row);
      preds, stop := preds + [row], stop + [checkpoint == Some(ids[i])];
    }
  }

  lemma ListsRenumber(preds: seq<seq<int>>, stop: seq<bool>, blocks: Blocks, checkpoint: Option<Identity>,
                      ids: seq<Identity>)
    requires Lists(preds, stop, blocks, checkpoint, ids) && |preds| == |ids| && Distinct(ids)
    requires forall id :: id in blocks <==> id in ids
    ensures WellFormed(preds, stop)
    ensures Renumbers(ids, LaceGraph(blocks, checkpoint), GraphOf(Kids(preds, stop)))
  {
    var g, kids := LaceGraph(blocks, checkpoint), Kids(preds, stop);
    var h := GraphOf(kids);
    EdgesAreStored(blocks, checkpoint);
    assert WellFormed(preds, stop) by {
      forall i, c | 0 <= i < |preds| && c in preds[i] ensures 0 <= c < |preds| {
        assert PointsAt(preds[i], blocks, ids[i], ids);
      }
    }
    forall i, j | 0 <= i < |ids| && 0 <= j < |ids| ensures Edge(h, i, j) <==> Edge(g, ids[i], ids[j]) {
      assert PointsAt(preds[i], blocks, ids[i], ids);
      assert kids[i] == Children(preds, stop, i);
    }
    forall i, j | Edge(h, i, j) ensures 0 <= i < |ids| && 0 <= j < |ids| {
      assert kids[i] == Children(preds, stop, i);
    }
  }

  // ---- siblings by creator ----

  ghost predicate Grouped(groups: map<Bytes, seq<int>>, ids: seq<Identity>) {
    && (forall i :: 0 <= i < |ids| ==> ids[i].creator in groups && i in groups[ids[i].creator])
    && (forall c :: c in groups ==> groups[c] != [] && Distinct(groups[c]) && By(ids, c, groups[c]))
  }

  ghost predicate By(ids: seq<Identity>, c: Bytes, members: seq<int>) {
    forall i :: i in members ==> 0 <= i < |ids| && ids[i].creator == c
  }

  lemma {:induction false} DistinctSnoc(was: seq<int>, i: int, ids: seq<Identity>, c: Bytes)
    requires Distinct(was) && By(ids, c, was) && i >= |ids|
    ensures Distinct(was + [i])
  {
    forall a, b | 0 <= a < b < |was| + 1 ensures (was + [i])[a] != (was + [i])[b] {
      assert was[a] in was;
    }
  }

  method GroupByCreator(ids: seq<Identity>) returns (groups: map<Bytes, seq<int>>)
    ensures Grouped(groups, ids)
  {
    groups := map[];
    for i := 0 to |ids|
      invariant Grouped(groups, ids[..i])
    {
      var c := ids[i].creator;
      var was := if c in groups then groups[c] else [];
      assert By(ids[..i], c, was) && Distinct(was);
      DistinctSnoc(was, i, ids[..i], c);
      groups := groups[c := was + [i]];
      forall d | d in groups ensures groups[d] != [] && Distinct(groups[d]) && By(ids[..i + 1], d, groups[d]) {
        if d != c { assert By(ids[..i], d, groups[d]); }
      }
    }
    assert ids[..|ids|] == ids;
  }

  // ---- the conflict table ----

  /** Positions of two blocks of one creator that do not reach each other. */
  ghost predicate Forked(ids: seq<Identity>, h: Graph<int>, t: int, s: int) {
    0 <= t < |ids| && 0 <= s < |ids| && ids[t].creator == ids[s].creator && !Comparable(h, t, s)
  }

  /** The table is finished for the creators in `done` and empty for the others. */
  ghost predicate TableFor(conflicts: map<int, seq<int>>, ids: seq<Identity>, h: Graph<int>, done: set<Bytes>) {
    && (forall t, s :: t in conflicts && s in conflicts[t] ==> Forked(ids, h, t, s))
    && (forall t :: t in conflicts ==> 0 <= t < |ids| && conflicts[t] != [] && ids[t].creator in done)
    && (forall t, s :: Forked(ids, h, t, s) && ids[t].creator in done ==> t in conflicts && s in conflicts[t])
  }

  ghost predicate InRangeTable(conflicts: map<int, seq<int>>, n: nat) {
    forall t, s :: t in conflicts && s in conflicts[t] ==> 0 <= t < n && 0 <= s < n
  }

  /** The incomparable siblings of one creator; nothing when its blocks form a chain. */
  method ConflictsOfCreator(c: Closure, ids: seq<Identity>, members: seq<int>, creator: Bytes, ghost h: Graph<int>)
    returns (pairs: map<int, seq<int>>)
    requires BuiltOver(c, h, |ids|) && Distinct(members)
    requires forall i :: i in members <==> 0 <= i < |ids| && ids[i].creator == creator
    ensures InRangeTable(pairs, |ids|)
    ensures forall t :: t in pairs ==> t in members
    ensures Antisymmetric(h) ==> TableFor(pairs, ids, h, {creator})
  {
    pairs := map[];
    if |members| > 1 {
      var chain, sorted := IsChain(c, |ids|, members, h);
      SameElements(sorted, members);
      if !chain {
        pairs := IncomparablePairs(c, sorted);
        if Antisymmetric(h) {
          forall t, s | t in members && s in members ensures Conflicts(c, t, s) <==> Forked(ids, h, t, s) {
            SiblingConflict(c, ids, h, t, s);
          }
        }
        return;
      }
    }
    forall t, s | t in members && s in members ensures !Forked(ids, h, t, s) {
      ReachesSelf(h, t);
    }
  }

  lemma {:induction false} SiblingConflict(c: Closure, ids: seq<Identity>, h: Graph<int>, t: int, s: int)
    requires BuiltOver(c, h, |ids|) && Antisymmetric(h)
    requires 0 <= t < |ids| && 0 <= s < |ids| && ids[t].creator == ids[s].creator
    ensures Conflicts(c, t, s) <==> Forked(ids, h, t, s)
  {
    ReachesSelf(h, t);
    ObservesIsReaches(c, h, |ids|, t, s);
    ObservesIsReaches(c, h, |ids|, s, t);
  }

  /** Adding one more creator's siblings to a table. */
  lemma ExtendTable(conflicts: map<int, seq<int>>, pairs: map<int, seq<int>>, ids: seq<Identity>, h: Graph<int>,
                    creator: Bytes, done: set<Bytes>)
    requires TableFor(conflicts, ids, h, done) && TableFor(pairs, ids, h, {creator}) && creator !in done
    ensures TableFor(conflicts + pairs, ids, h, done + {creator})
  {}

  ghost function Creators(ids: seq<Identity>): set<Bytes> {
    set i | 0 <= i < |ids| :: ids[i].creator
  }

  ghost function Elements(s: seq<Bytes>): set<Bytes> {
    set x | x in s
  }

  method FillConflicts(c: Closure, ids: seq<Identity>, ghost h: Graph<int>) returns (conflicts: map<int, seq<int>>)
    requires BuiltOver(c, h, |ids|)
    ensures InRangeTable(conflicts, |ids|)
    ensures Antisymmetric(h) ==> TableFor(conflicts, ids, h, Creators(ids))
  {
    var groups := GroupByCreator(ids);
    var creators := Enumerate(groups.Keys);
    conflicts := map[];
    for k := 0 to |creators|
      invariant InRangeTable(conflicts, |ids|)
      invariant Antisymmetric(h) ==> TableFor(conflicts, ids, h, Elements(creators[..k]))
    {
      var creator := creators[k];
      assert creator in creators;
      var members := groups[creator];
      assert By(ids, creator, members);
      var pairs := ConflictsOfCreator(c, ids, members, creator, h);
      assert Elements(creators[..k + 1]) == Elements(creators[..k]) + {creator} by {
        assert creators[..k + 1] == creators[..k] + [creator];
      }
      if Antisymmetric(h) {
        ExtendTable(conflicts, pairs, ids, h, creator, Elements(creators[..k]));
      }
      conflicts := conflicts + pairs;
    }
    assert creators[..|creators|] == creators;
    assert Elements(creators) == Creators(ids) by {
      forall c | c in creators ensures c in Creators(ids) {
        assert c in groups && By(ids, c, groups[c]);
        var i := groups[c][0];
        assert i in groups[c] && ids[i].creator == c;
      }
    }
  }

  // ---- the build ----

  method Build(blocks: Blocks, checkpoint: Option<Identity>, generation: nat) returns (index: AncestorIndex)
    ensures index.generation == generation && IndexFor(index, blocks, checkpoint)
  {
    var ids := Enumerate(blocks.Keys);
    var pos := NumberIds(ids, blocks);
    var table := FillUnsigned(ids);
    var preds, stop := ListAll(pos, table, blocks, checkpoint, ids);
    ListsRenumber(preds, stop, blocks, checkpoint, ids);
    var closure := ClosureMatrix.Build(preds, stop);
    ghost var h := GraphOf(Kids(preds, stop));
    var conflicts := FillConflicts(closure, ids, h);
    index := AncestorIndex(generation, pos, closure, conflicts);
    BuildIsIndex(index, blocks, checkpoint, ids, h);
  }

  lemma {:induction false} BuildIsIndex(index: AncestorIndex, blocks: Blocks, checkpoint: Option<Identity>,
                                        ids: seq<Identity>, h: Graph<int>)
    requires Positions(index.pos, blocks, ids) && Renumbers(ids, LaceGraph(blocks, checkpoint), h)
    requires BuiltOver(index.closure, h, |ids|) && InRangeTable(index.conflicts, |ids|)
    requires Antisymmetric(h) ==> TableFor(index.conflicts, ids, h, Creators(ids))
    ensures Indexes(index, blocks, checkpoint, ids)
  {
    var g := LaceGraph(blocks, checkpoint);
    RenumberAntisymmetric(ids, g, h);
    forall i, j | 0 <= i < |ids| && 0 <= j < |ids|
      ensures index.closure.Observes(i, j) ==> Reaches(g, ids[i], ids[j])
      ensures Antisymmetric(g) ==> (index.closure.Observes(i, j) <==> Reaches(g, ids[i], ids[j]))
    {
      ObservesIsReaches(index.closure, h, |ids|, i, j);
      RenumberReaches(ids, g, h, i, j);
    }
    if Antisymmetric(g) {
      TableIsConflicts(index.conflicts, blocks, ids, g, h);
    }
  }

  lemma {:induction false} TableIsConflicts(conflicts: map<int, seq<int>>, blocks: Blocks, ids: seq<Identity>,
                                            g: Graph<Identity>, h: Graph<int>)
    requires Renumbers(ids, g, h) && TableFor(conflicts, ids, h, Creators(ids))
    requires forall id :: id in blocks <==> id in ids
    ensures ConflictTable(conflicts, blocks, g, ids)
  {
    forall t, s | 0 <= t < |ids| && 0 <= s < |ids|
      ensures Fork(blocks, g, ids[t], ids[s]) <==> Forked(ids, h, t, s)
      ensures Fork(blocks, g, ids[t], ids[s]) <==> Listed(conflicts, t, s)
    {
      RenumberReaches(ids, g, h, t, s);
      RenumberReaches(ids, g, h, s, t);
      assert Forked(ids, h, t, s) ==> ids[t].creator in Creators(ids);
    }
  }
}
