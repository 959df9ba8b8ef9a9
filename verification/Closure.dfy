/**
 * The ancestor bit matrix of crates/cordial-miners-core/src/ancestor_index.rs:
 * row `a` holds one bit per node that `a` observes, packed in 64-bit words.
 */
module ClosureMatrix {
  import opened Reachability
  import opened Words

  // ---- the flat row-major layout ----

  function Cell(words: nat, row: nat, w: nat): nat {
    row * words + w
  }

  /** Bit `b` of row `a`; cells past the end of the buffer read as zero. */
  predicate Has(bits: seq<Word>, words: nat, a: nat, b: nat) {
    var i := Cell(words, a, b / 64);
    i < |bits| && Bit(bits[i], b % 64)
  }

  ghost predicate Fits(bits: seq<Word>, words: nat, n: nat) {
    && words == (if n == 0 then 1 else (n + 63) / 64)
    && |bits| == n * words
  }

  ghost function Row(bits: seq<Word>, words: nat, a: nat): set<int> {
    set b | 0 <= b < 64 * words && Has(bits, words, a, b)
  }

  /** The matrix as one set of observed nodes per row. */
  ghost function Rows(bits: seq<Word>, words: nat, n: nat): (rows: seq<set<int>>)
    ensures |rows| == n
  {
    if n == 0 then [] else Rows(bits, words, n - 1) + [Row(bits, words, n - 1)]
  }

  lemma {:induction false} RowAt(bits: seq<Word>, words: nat, n: nat, a: nat)
    requires a < n
    ensures Rows(bits, words, n)[a] == Row(bits, words, a)
  {
    if a < n - 1 { RowAt(bits, words, n - 1, a); }
  }

  lemma {:induction false} CellInside(words: nat, n: nat, row: nat, w: nat)
    requires row < n && w < words
    ensures Cell(words, row, w) < n * words
  {
    assert (row + 1) * words <= n * words;
  }

  lemma {:induction false} CellsDistinct(words: nat, a: nat, v: nat, b: nat, w: nat)
    requires v < words && w < words && (a != b || v != w)
    ensures Cell(words, a, v) != Cell(words, b, w)
  {
    if a < b {
      assert (a + 1) * words <= b * words;
    } else if b < a {
      assert (b + 1) * words <= a * words;
    }
  }

  lemma {:induction false} OrCellAt(bits: seq<Word>, bits': seq<Word>, words: nat, n: nat, row: nat, w: nat, v: Word,
                                    a: nat, b: nat)
    requires |bits| == n * words && row < n && w < words && a < n && b < 64 * words
    requires var i := Cell(words, row, w); i < |bits| && bits' == bits[i := OrWord(bits[i], v)]
    ensures Has(bits', words, a, b) <==> Has(bits, words, a, b) || (a == row && b / 64 == w && Bit(v, b % 64))
  {
    CellInside(words, n, a, b / 64);
    if a != row || b / 64 != w {
      CellsDistinct(words, a, b / 64, row, w);
    }
  }

  /** Or-ing `v` into word `w` of row `row` adds that word's bits to that row and touches nothing else. */
  lemma OrCell(bits: seq<Word>, bits': seq<Word>, words: nat, n: nat, row: nat, w: nat, v: Word, added: set<int>)
    requires Fits(bits, words, n) && row < n && w < words
    requires var i := Cell(words, row, w); i < |bits| && bits' == bits[i := OrWord(bits[i], v)]
    requires forall b :: b in added <==> 0 <= b && b / 64 == w && Bit(v, b % 64)
    ensures var rows := Rows(bits, words, n); Rows(bits', words, n) == rows[row := rows[row] + added]
  {
    var rows := Rows(bits, words, n);
    forall a: nat | a < n
      ensures Rows(bits', words, n)[a] == rows[row := rows[row] + added][a]
    {
      RowAt(bits, words, n, a);
      RowAt(bits', words, n, a);
      OrCellRow(bits, bits', words, n, row, w, v, added, a);
    }
  }

  lemma {:induction false} OrCellRow(bits: seq<Word>, bits': seq<Word>, words: nat, n: nat, row: nat, w: nat, v: Word,
                                     added: set<int>, a: nat)
    requires Fits(bits, words, n) && row < n && w < words && a < n
    requires var i := Cell(words, row, w); i < |bits| && bits' == bits[i := OrWord(bits[i], v)]
    requires forall b :: b in added <==> 0 <= b && b / 64 == w && Bit(v, b % 64)
    ensures Row(bits', words, a) == (if a == row then Row(bits, words, a) + added else Row(bits, words, a))
  {
    forall b: nat | b < 64 * words
      ensures Has(bits', words, a, b) <==> Has(bits, words, a, b) || (a == row && b in added)
    {
      OrCellAt(bits, bits', words, n, row, w, v, a, b);
    }
    assert forall b :: b in added ==> 0 <= b < 64 * words;
  }

  // ---- row operations ----

  method SetBit(bits: array<Word>, words: nat, n: nat, row: nat, b: nat)
    requires Fits(bits[..], words, n) && row < n && b < n
    modifies bits
    ensures Fits(bits[..], words, n)
    ensures var rows := old(Rows(bits[..], words, n)); Rows(bits[..], words, n) == rows[row := rows[row] + {b}]
  {
    CellInside(words, n, row, b / 64);
    var i := Cell(words, row, b / 64);
    ghost var was := bits[..];
    bits[i] := OrWord(bits[i], SingleBit(b % 64));
    assert bits[..] == was[i := OrWord(was[i], SingleBit(b % 64))];
    OrCell(was, bits[..], words, n, row, b / 64, SingleBit(b % 64), {b});
  }

  /** The members of `s` stored in words below `w`. */
  ghost function Below(s: set<int>, w: nat): set<int> {
    set b | b in s && b / 64 < w
  }

  /** Copying word `w` of row `child` into row `row` when the words before it are already copied. */
  lemma OrWordOfRow(bits: seq<Word>, bits': seq<Word>, words: nat, n: nat, row: nat, child: nat, w: nat,
                    rows: seq<set<int>>)
    requires Fits(bits, words, n) && row < n && child < n && row != child && w < words && |rows| == n
    requires Rows(bits, words, n) == rows[row := rows[row] + Below(rows[child], w)]
    requires var i, j := Cell(words, row, w), Cell(words, child, w);
      i < |bits| && j < |bits| && bits' == bits[i := OrWord(bits[i], bits[j])]
    ensures Rows(bits', words, n) == rows[row := rows[row] + Below(rows[child], w + 1)]
  {
    var v := bits[Cell(words, child, w)];
    var added := set b | b in rows[child] && b / 64 == w;
    RowAt(bits, words, n, child);
    forall b ensures b in added <==> 0 <= b && b / 64 == w && Bit(v, b % 64) {
      if b / 64 == w { assert b < 64 * words; }
    }
    OrCell(bits, bits', words, n, row, w, v, added);
    assert Below(rows[child], w + 1) == Below(rows[child], w) + added;
    assert rows[row] + Below(rows[child], w) + added == rows[row] + Below(rows[child], w + 1);
  }

  /** Or row `child` into row `row`, one word at a time. */
  method OrRow(bits: array<Word>, words: nat, n: nat, row: nat, child: nat)
    requires Fits(bits[..], words, n) && row < n && child < n && row != child
    modifies bits
    ensures Fits(bits[..], words, n)
    ensures var rows := old(Rows(bits[..], words, n)); Rows(bits[..], words, n) == rows[row := rows[row] + rows[child]]
  {
    ghost var rows := Rows(bits[..], words, n);
    RowAt(bits[..], words, n, child);
    assert rows[row] + Below(rows[child], 0) == rows[row];
    var w := 0;
    while w < words
      invariant 0 <= w <= words && Fits(bits[..], words, n)
      invariant Rows(bits[..], words, n) == rows[row := rows[row] + Below(rows[child], w)]
    {
      CellInside(words, n, row, w);
      CellInside(words, n, child, w);
      ghost var was := bits[..];
      var i := Cell(words, row, w);
      bits[i] := OrWord(bits[i], bits[Cell(words, child, w)]);
      assert bits[..] == was[i := OrWord(was[i], was[Cell(words, child, w)])];
      OrWordOfRow(was, bits[..], words, n, row, child, w, rows);
      w := w + 1;
    }
    assert rows[child] == Below(rows[child], words);
  }

  /** The row of `node` once its finished children are known. */
  ghost predicate RowFrom(row: set<int>, rows: seq<set<int>>, state: seq<nat>, node: int, children: seq<int>)
    requires |state| == |rows|
  {
    forall b :: b in row <==> b == node || exists c :: c in children && 0 <= c < |rows| && state[c] == 2 && b in rows[c]
  }

  /** Finish the row of `node`: itself, and the rows of its finished children. */
  method CompleteRow(bits: array<Word>, words: nat, n: nat, node: nat, children: seq<int>, state: seq<nat>)
    requires Fits(bits[..], words, n) && node < n && |state| == n && state[node] != 2
    requires forall c :: c in children ==> 0 <= c < n
    requires Rows(bits[..], words, n)[node] == {}
    modifies bits
    ensures Fits(bits[..], words, n)
    ensures var rows, rows' := old(Rows(bits[..], words, n)), Rows(bits[..], words, n);
      rows' == rows[node := rows'[node]] && RowFrom(rows'[node], rows, state, node, children)
  {
    ghost var rows := Rows(bits[..], words, n);
    SetBit(bits, words, n, node, node);
    ghost var row: set<int> := {} + {node};
    var i := 0;
    while i < |children|
      invariant 0 <= i <= |children| && Fits(bits[..], words, n)
      invariant Rows(bits[..], words, n) == rows[node := row]
      invariant RowFrom(row, rows, state, node, children[..i])
    {
      var child := children[i];
      assert child in children;
      assert children[..i + 1] == children[..i] + [child];
      if state[child] == 2 && child != node {
        OrRow(bits, words, n, node, child);
        row := row + rows[child];
      }
      i := i + 1;
    }
    assert children[..|children|] == children;
  }

  // ---- the graph a build is given ----

  ghost predicate WellFormed(preds: seq<seq<int>>, stop: seq<bool>) {
    && |stop| == |preds|
    && forall i, c :: 0 <= i < |preds| && c in preds[i] ==> 0 <= c < |preds|
  }

  function Children(preds: seq<seq<int>>, stop: seq<bool>, a: int): seq<int>
    requires 0 <= a < |preds| == |stop|
  {
    if stop[a] then [] else preds[a]
  }

  /** The lists the search follows: nothing below a stop node. */
  ghost function Kids(preds: seq<seq<int>>, stop: seq<bool>): (kids: seq<seq<int>>)
    requires |stop| == |preds|
    ensures |kids| == |preds|
    ensures forall a :: 0 <= a < |preds| ==> kids[a] == Children(preds, stop, a)
  {
    seq(|preds|, a requires 0 <= a < |preds| => Children(preds, stop, a))
  }

  ghost predicate InRange(kids: seq<seq<int>>) {
    forall i, c :: 0 <= i < |kids| && c in kids[i] ==> 0 <= c < |kids|
  }

  ghost function GraphOf(kids: seq<seq<int>>): Graph<int> {
    map i | 0 <= i < |kids| :: set c | c in kids[i]
  }

  // ---- the depth-first search ----

  /** A node on the stack and the number of its children already looked at. */
  datatype Frame = Frame(node: int, next: nat)

  ghost predicate FramesOk(kids: seq<seq<int>>, stack: seq<Frame>) {
    forall i :: 0 <= i < |stack| ==> 0 <= stack[i].node < |kids| && stack[i].next <= |kids[stack[i].node]|
  }

  /** The stack holds exactly the nodes in state 1, without repetition. */
  ghost predicate Marked(state: seq<nat>, stack: seq<Frame>) {
    && (forall i :: 0 <= i < |stack| ==> 0 <= stack[i].node < |state| && state[stack[i].node] == 1)
    && (forall i, j :: 0 <= i < j < |stack| ==> stack[i].node != stack[j].node)
    && (forall a {:trigger OnStack(stack, a)} :: 0 <= a < |state| && state[a] == 1 ==> OnStack(stack, a))
  }

  ghost predicate OnStack(stack: seq<Frame>, a: int) {
    exists i :: 0 <= i < |stack| && stack[i].node == a
  }

  /** Each node on the stack is the child its parent's cursor last passed. */
  ghost predicate Linked(kids: seq<seq<int>>, stack: seq<Frame>) {
    forall i :: 0 <= i < |stack| - 1 ==> Link(kids, stack, i)
  }

  ghost predicate Link(kids: seq<seq<int>>, stack: seq<Frame>, i: int)
    requires 0 <= i < |stack| - 1
  {
    var f := stack[i];
    0 <= f.node < |kids| && 0 < f.next <= |kids[f.node]| && stack[i + 1].node == kids[f.node][f.next - 1]
  }

  /** Every child already looked at has been visited. */
  ghost predicate Seen(kids: seq<seq<int>>, state: seq<nat>, stack: seq<Frame>)
    requires |state| == |kids| && FramesOk(kids, stack)
  {
    forall i :: 0 <= i < |stack| ==> SeenUpTo(kids, state, stack[i].node, stack[i].next)
  }

  ghost predicate SeenUpTo(kids: seq<seq<int>>, state: seq<nat>, node: int, next: nat)
    requires |state| == |kids| && 0 <= node < |kids| && next <= |kids[node]|
  {
    forall j :: 0 <= j < next ==> 0 <= kids[node][j] < |state| && state[kids[node][j]] != 0
  }

  ghost predicate StackOk(kids: seq<seq<int>>, state: seq<nat>, stack: seq<Frame>) {
    && |state| == |kids| && InRange(kids)
    && FramesOk(kids, stack) && Marked(state, stack) && Linked(kids, stack) && Seen(kids, state, stack)
  }

  lemma {:induction false} StackPath(kids: seq<seq<int>>, stack: seq<Frame>, i: nat, j: nat)
    requires FramesOk(kids, stack) && Linked(kids, stack) && i <= j < |stack|
    ensures Reaches(GraphOf(kids), stack[i].node, stack[j].node)
  {
    var g := GraphOf(kids);
    if i == j {
      ReachesSelf(g, stack[i].node);
    } else {
      StackPath(kids, stack, i, j - 1);
      assert Link(kids, stack, j - 1);
      ReachesThenEdge(g, stack[i].node, stack[j - 1].node, stack[j].node);
    }
  }

  /** `finish` numbers the finished nodes in the order their rows were completed. */
  ghost predicate Numbered(state: seq<nat>, finish: map<int, nat>) {
    && (forall a :: a in finish <==> 0 <= a < |state| && state[a] == 2)
    && (forall a :: a in finish ==> finish[a] < |finish|)
    && (forall a, b :: a in finish && b in finish && finish[a] == finish[b] ==> a == b)
  }

  /**
   * Only finished rows hold bits, every bit is a path, and a row never sees a node that
   * finished after it.
   */
  ghost predicate AllSound(g: Graph<int>, rows: seq<set<int>>, finish: map<int, nat>) {
    forall a :: 0 <= a < |rows| ==> if a in finish then RowSound(g, a, rows[a], finish) else rows[a] == {}
  }

  ghost predicate AllFull(g: Graph<int>, rows: seq<set<int>>, finish: map<int, nat>) {
    forall a :: 0 <= a < |rows| && a in finish ==> RowFull(g, a, rows[a])
  }

  ghost predicate RowsOk(g: Graph<int>, rows: seq<set<int>>, finish: map<int, nat>) {
    AllSound(g, rows, finish) && (Antisymmetric(g) ==> AllFull(g, rows, finish))
  }

  ghost predicate RowSound(g: Graph<int>, a: int, row: set<int>, finish: map<int, nat>)
    requires a in finish
  {
    forall b :: b in row ==> b in finish && finish[b] <= finish[a] && Reaches(g, a, b)
  }

  ghost predicate RowFull(g: Graph<int>, a: int, row: set<int>) {
    forall b :: Reaches(g, a, b) ==> b in row
  }

  /** Every child of a node about to finish is finished, or is the node itself. */
  lemma FinishedChild(kids: seq<seq<int>>, state: seq<nat>, stack: seq<Frame>, c: int)
    requires StackOk(kids, state, stack) && stack != [] && forall a :: 0 <= a < |state| ==> state[a] <= 2
    requires var top := stack[|stack| - 1]; top.next == |kids[top.node]| && c in kids[top.node]
    requires Antisymmetric(GraphOf(kids))
    ensures state[c] == 2 || c == stack[|stack| - 1].node
  {
    var top := stack[|stack| - 1];
    assert SeenUpTo(kids, state, top.node, top.next);
    if state[c] == 1 {
      assert OnStack(stack, c);
      var i :| 0 <= i < |stack| && stack[i].node == c;
      StackPath(kids, stack, i, |stack| - 1);
      EdgeReaches(GraphOf(kids), top.node, c);
    }
  }

  lemma NewRowSound(kids: seq<seq<int>>, state: seq<nat>, rows: seq<set<int>>, finish: map<int, nat>, node: int,
                    row: set<int>)
    requires 0 <= node < |kids| && node !in finish && |state| == |rows| && Numbered(state, finish)
    requires RowsOk(GraphOf(kids), rows, finish)
    requires RowFrom(row, rows, state, node, kids[node])
    ensures RowSound(GraphOf(kids), node, row, finish[node := |finish|])
  {
    var g := GraphOf(kids);
    ReachesSelf(g, node);
    forall b | b in row ensures (b in finish || b == node) && Reaches(g, node, b) {
      if b != node {
        var c :| c in kids[node] && 0 <= c < |rows| && state[c] == 2 && b in rows[c];
        assert RowSound(g, c, rows[c], finish);
        EdgeThenReaches(g, node, c, b);
      }
    }
  }

  lemma NewRowFull(kids: seq<seq<int>>, state: seq<nat>, stack: seq<Frame>, rows: seq<set<int>>,
                   finish: map<int, nat>, row: set<int>)
    requires StackOk(kids, state, stack) && stack != [] && forall a :: 0 <= a < |state| ==> state[a] <= 2
    requires |state| == |rows| && Numbered(state, finish) && RowsOk(GraphOf(kids), rows, finish)
    requires var top := stack[|stack| - 1]; top.next == |kids[top.node]|
    requires var node := stack[|stack| - 1].node; RowFrom(row, rows, state, node, kids[node])
    requires Antisymmetric(GraphOf(kids))
    ensures RowFull(GraphOf(kids), stack[|stack| - 1].node, row)
  {
    var g := GraphOf(kids);
    var node := stack[|stack| - 1].node;
    forall b | Reaches(g, node, b) ensures b in row {
      if b != node {
        var c := FirstStep(g, node, b);
        FinishedChild(kids, state, stack, c);
        assert RowFull(g, c, rows[c]);
      }
    }
  }

  lemma NumberNode(state: seq<nat>, finish: map<int, nat>, node: int)
    requires 0 <= node < |state| && node !in finish && Numbered(state, finish)
    ensures Numbered(state[node := 2], finish[node := |finish|])
  {
    var finish' := finish[node := |finish|];
    OneMoreKey(finish, node, |finish|);
    forall a, b | a in finish' && b in finish' && finish'[a] == finish'[b] ensures a == b {
      if a != node && b != node { assert finish[a] == finish[b]; }
    }
  }

  lemma OneMoreKey(m: map<int, nat>, key: int, value: nat)
    requires key !in m
    ensures m[key := value].Keys == m.Keys + {key} && |m[key := value]| == |m| + 1
  {
    assert m[key := value].Keys == m.Keys + {key};
  }

  lemma RecordSoundRow(g: Graph<int>, state: seq<nat>, rows: seq<set<int>>, finish: map<int, nat>, node: int,
                       row: set<int>)
    requires 0 <= node < |rows| && node !in finish && Numbered(state, finish) && AllSound(g, rows, finish)
    requires RowSound(g, node, row, finish[node := |finish|])
    ensures AllSound(g, rows[node := row], finish[node := |finish|])
  {
    var finish' := finish[node := |finish|];
    forall a | 0 <= a < |rows| && a in finish ensures RowSound(g, a, rows[a], finish') {
      assert RowSound(g, a, rows[a], finish);
    }
  }

  lemma RowCompleted(kids: seq<seq<int>>, state: seq<nat>, stack: seq<Frame>,
                     rows: seq<set<int>>, rows': seq<set<int>>, finish: map<int, nat>)
    requires StackOk(kids, state, stack) && stack != [] && forall a :: 0 <= a < |state| ==> state[a] <= 2
    requires Numbered(state, finish) && RowsOk(GraphOf(kids), rows, finish) && |rows'| == |rows| == |state|
    requires var top := stack[|stack| - 1]; top.next == |kids[top.node]|
    requires var node := stack[|stack| - 1].node;
      rows' == rows[node := rows'[node]] && RowFrom(rows'[node], rows, state, node, kids[node])
    ensures var node := stack[|stack| - 1].node;
      Numbered(state[node := 2], finish[node := |finish|]) && RowsOk(GraphOf(kids), rows', finish[node := |finish|])
  {
    var node := stack[|stack| - 1].node;
    NewRowSound(kids, state, rows, finish, node, rows'[node]);
    if Antisymmetric(GraphOf(kids)) {
      NewRowFull(kids, state, stack, rows, finish, rows'[node]);
    }
    NumberNode(state, finish, node);
    RecordSoundRow(GraphOf(kids), state, rows, finish, node, rows'[node]);
  }

  // ---- the three moves of the search ----

  /** Work left on the stack. */
  ghost function Remaining(kids: seq<seq<int>>, stack: seq<Frame>): nat
    requires FramesOk(kids, stack)
  {
    if stack == [] then 0 else
      var top := stack[|stack| - 1];
      1 + |kids[top.node]| - top.next + Remaining(kids, stack[..|stack| - 1])
  }

  ghost function Unvisited(state: seq<nat>): set<int> {
    set a | 0 <= a < |state| && state[a] == 0
  }

  function Advanced(stack: seq<Frame>): seq<Frame>
    requires stack != []
  {
    var top := stack[|stack| - 1];
    stack[|stack| - 1 := Frame(top.node, top.next + 1)]
  }

  /** Moving the top cursor past a visited child. */
  lemma Skip(kids: seq<seq<int>>, state: seq<nat>, stack: seq<Frame>)
    requires StackOk(kids, state, stack) && stack != []
    requires var top := stack[|stack| - 1];
      top.next < |kids[top.node]| && var c := kids[top.node][top.next]; 0 <= c < |state| && state[c] != 0
    ensures StackOk(kids, state, Advanced(stack))
  {
    var stack' := Advanced(stack);
    assert FramesOk(kids, stack');
    forall i | 0 <= i < |stack'| - 1 ensures Link(kids, stack', i) {
      assert Link(kids, stack, i);
    }
    forall a | 0 <= a < |state| && state[a] == 1 ensures OnStack(stack', a) {
      assert OnStack(stack, a);
      var i :| 0 <= i < |stack| && stack[i].node == a;
      assert stack'[i].node == a;
    }
    forall i | 0 <= i < |stack'| ensures SeenUpTo(kids, state, stack'[i].node, stack'[i].next) {
      assert SeenUpTo(kids, state, stack[i].node, stack[i].next);
    }
  }

  lemma SkipShrinks(kids: seq<seq<int>>, stack: seq<Frame>)
    requires stack != [] && FramesOk(kids, stack) && FramesOk(kids, Advanced(stack))
    ensures Remaining(kids, Advanced(stack)) < Remaining(kids, stack)
  {
    assert Advanced(stack)[..|stack| - 1] == stack[..|stack| - 1];
  }

  lemma PushMarked(state: seq<nat>, stack: seq<Frame>, child: int)
    requires Marked(state, stack) && stack != [] && 0 <= child < |state| && state[child] == 0
    ensures Marked(state[child := 1], Advanced(stack) + [Frame(child, 0)])
  {
    var stack' := Advanced(stack) + [Frame(child, 0)];
    forall a | 0 <= a < |state| && state[a] == 1 ensures OnStack(stack', a) {
      assert OnStack(stack, a);
      var i :| 0 <= i < |stack| && stack[i].node == a;
      assert stack'[i].node == a;
    }
    assert stack'[|stack|].node == child;
  }

  /** Descending into an unvisited child. */
  lemma Push(kids: seq<seq<int>>, state: seq<nat>, stack: seq<Frame>, child: int)
    requires StackOk(kids, state, stack) && stack != []
    requires var top := stack[|stack| - 1]; top.next < |kids[top.node]| && child == kids[top.node][top.next]
    requires 0 <= child < |state| && state[child] == 0
    ensures StackOk(kids, state[child := 1], Advanced(stack) + [Frame(child, 0)])
    ensures |Unvisited(state[child := 1])| < |Unvisited(state)|
  {
    var top := stack[|stack| - 1];
    var state', stack' := state[child := 1], Advanced(stack) + [Frame(child, 0)];
    assert Unvisited(state') == Unvisited(state) - {child} && child in Unvisited(state);
    assert FramesOk(kids, stack');
    forall i | 0 <= i < |stack'| - 1 ensures Link(kids, stack', i) {
      if i < |stack| - 1 { assert Link(kids, stack, i); }
    }
    PushMarked(state, stack, child);
    forall i | 0 <= i < |stack'| ensures SeenUpTo(kids, state', stack'[i].node, stack'[i].next) {
      if i < |stack| {
        assert SeenUpTo(kids, state, stack[i].node, stack[i].next);
      }
    }
  }

  /** Leaving a node whose row is complete. */
  lemma Pop(kids: seq<seq<int>>, state: seq<nat>, stack: seq<Frame>)
    requires StackOk(kids, state, stack) && stack != []
    ensures StackOk(kids, state[stack[|stack| - 1].node := 2], stack[..|stack| - 1])
    ensures Remaining(kids, stack[..|stack| - 1]) < Remaining(kids, stack)
    ensures Unvisited(state[stack[|stack| - 1].node := 2]) == Unvisited(state)
  {
    var node := stack[|stack| - 1].node;
    var state', stack' := state[node := 2], stack[..|stack| - 1];
    forall i | 0 <= i < |stack'| - 1 ensures Link(kids, stack', i) {
      assert Link(kids, stack, i);
    }
    forall a | 0 <= a < |state'| && state'[a] == 1 ensures OnStack(stack', a) {
      assert OnStack(stack, a);
      var i :| 0 <= i < |stack| && stack[i].node == a;
      assert stack'[i].node == a;
    }
    forall i | 0 <= i < |stack'| ensures SeenUpTo(kids, state', stack'[i].node, stack'[i].next) {
      assert SeenUpTo(kids, state, stack[i].node, stack[i].next);
    }
  }

  // ---- the build ----

  datatype Closure = Closure(words: nat, bits: seq<Word>) {
    /** `a` observes `b`: `b` is in the closure of `a`. */
    predicate Observes(a: nat, b: nat) {
      Has(bits, words, a, b)
    }
  }

  /**
   * What a build over `g` promises: every bit is a path, and every path has its bit exactly
   * when `g` has no cycle but self-loops.
   */
  ghost predicate BuiltOver(c: Closure, g: Graph<int>, n: nat) {
    && Fits(c.bits, c.words, n)
    && (forall a, b :: 0 <= a < n && b in Rows(c.bits, c.words, n)[a] ==> 0 <= b < n && Reaches(g, a, b))
    && (Antisymmetric(g) <==> forall a :: 0 <= a < n ==> RowFull(g, a, Rows(c.bits, c.words, n)[a]))
  }

  /** Everything that holds between two moves of the search. */
  ghost predicate SearchOk(kids: seq<seq<int>>, state: seq<nat>, stack: seq<Frame>, rows: seq<set<int>>,
                           finish: map<int, nat>)
  {
    && StackOk(kids, state, stack) && |rows| == |kids| && (forall a :: 0 <= a < |state| ==> state[a] <= 2)
    && Numbered(state, finish) && RowsOk(GraphOf(kids), rows, finish)
  }

  lemma Descends(kids: seq<seq<int>>, state: seq<nat>, stack: seq<Frame>, rows: seq<set<int>>,
                 finish: map<int, nat>, child: int)
    requires SearchOk(kids, state, stack, rows, finish) && stack != []
    requires var top := stack[|stack| - 1]; top.next < |kids[top.node]| && child == kids[top.node][top.next]
    requires 0 <= child < |state| && state[child] == 0
    ensures SearchOk(kids, state[child := 1], Advanced(stack) + [Frame(child, 0)], rows, finish)
    ensures |Unvisited(state[child := 1])| < |Unvisited(state)|
  {
    Push(kids, state, stack, child);
  }

  lemma Completes(kids: seq<seq<int>>, state: seq<nat>, stack: seq<Frame>,
                  rows: seq<set<int>>, rows': seq<set<int>>, finish: map<int, nat>)
    requires SearchOk(kids, state, stack, rows, finish) && stack != [] && |rows'| == |rows|
    requires var top := stack[|stack| - 1]; top.next == |kids[top.node]|
    requires var node := stack[|stack| - 1].node;
      rows' == rows[node := rows'[node]] && RowFrom(rows'[node], rows, state, node, kids[node])
    ensures var node := stack[|stack| - 1].node;
      SearchOk(kids, state[node := 2], stack[..|stack| - 1], rows', finish[node := |finish|])
    ensures Remaining(kids, stack[..|stack| - 1]) < Remaining(kids, stack)
    ensures Unvisited(state[stack[|stack| - 1].node := 2]) == Unvisited(state)
  {
    RowCompleted(kids, state, stack, rows, rows', finish);
    Pop(kids, state, stack);
  }

  /** Nodes that were visited stay visited. */
  ghost predicate Kept(state: seq<nat>, root: int, state': seq<nat>) {
    |state'| == |state| && forall a :: 0 <= a < |state| && (a == root || state[a] != 0) ==> state'[a] != 0
  }

  lemma KeptMore(state: seq<nat>, root: int, state': seq<nat>, a: int, value: nat)
    requires Kept(state, root, state') && 0 <= a < |state'| && value != 0
    ensures Kept(state, root, state'[a := value])
  {}

  lemma Enter(kids: seq<seq<int>>, state: seq<nat>, rows: seq<set<int>>, finish: map<int, nat>, root: int)
    requires 0 <= root < |state| == |kids| == |rows| && InRange(kids) && state[root] == 0
    requires Idle(state) && Numbered(state, finish) && RowsOk(GraphOf(kids), rows, finish)
    ensures SearchOk(kids, state[root := 1], [Frame(root, 0)], rows, finish)
  {
    var stack := [Frame(root, 0)];
    assert OnStack(stack, root) by { assert stack[0].node == root; }
  }

  /** No node is on the stack. */
  ghost predicate Idle(state: seq<nat>) {
    forall a :: 0 <= a < |state| ==> state[a] == 0 || state[a] == 2
  }

  lemma Leave(kids: seq<seq<int>>, state: seq<nat>, rows: seq<set<int>>, finish: map<int, nat>)
    requires SearchOk(kids, state, [], rows, finish)
    ensures Idle(state)
  {
    forall a | 0 <= a < |state| ensures state[a] != 1 {
      assert !OnStack([], a);
    }
  }

  /** The search from one root: visits what is unvisited below it and completes those rows. */
  method Search(preds: seq<seq<int>>, stop: seq<bool>, bits: array<Word>, words: nat, state: seq<nat>, root: nat,
                ghost kids: seq<seq<int>>, ghost finish: map<int, nat>)
    returns (state': seq<nat>, ghost finish': map<int, nat>)
    requires WellFormed(preds, stop) && kids == Kids(preds, stop) && Fits(bits[..], words, |preds|)
    requires root < |state| == |preds| && state[root] == 0 && Idle(state)
    requires Numbered(state, finish) && RowsOk(GraphOf(kids), Rows(bits[..], words, |preds|), finish)
    modifies bits
    ensures Fits(bits[..], words, |preds|) && Kept(state, root, state') && Idle(state')
    ensures Numbered(state', finish') && RowsOk(GraphOf(kids), Rows(bits[..], words, |preds|), finish')
  {
    var n := |preds|;
    ghost var rows := Rows(bits[..], words, n);
    Enter(kids, state, rows, finish, root);
    state', finish' := state[root := 1], finish;
    var stack := [Frame(root, 0)];
    while stack != []
      invariant Fits(bits[..], words, n) && rows == Rows(bits[..], words, n)
      invariant SearchOk(kids, state', stack, rows, finish')
      invariant Kept(state, root, state')
      decreases |Unvisited(state')|, Remaining(kids, stack)
    {
      var top := stack[|stack| - 1];
      var children := Children(preds, stop, top.node);
      if top.next < |children| {
        var child := children[top.next];
        assert child in kids[top.node];
        if state'[child] == 0 {
          Descends(kids, state', stack, rows, finish', child);
          KeptMore(state, root, state', child, 1);
          state' := state'[child := 1];
          stack := Advanced(stack) + [Frame(child, 0)];
        } else {
          Skip(kids, state', stack);
          SkipShrinks(kids, stack);
          stack := Advanced(stack);
        }
      } else {
        CompleteRow(bits, words, n, top.node, children, state');
        Completes(kids, state', stack, rows, Rows(bits[..], words, n), finish');
        KeptMore(state, root, state', top.node, 2);
        rows := Rows(bits[..], words, n);
        finish' := finish'[top.node := |finish'|];
        state' := state'[top.node := 2];
        stack := stack[..|stack| - 1];
      }
    }
    Leave(kids, state', rows, finish');
  }

  method NewMatrix(n: nat) returns (words: nat, bits: array<Word>)
    ensures fresh(bits) && Fits(bits[..], words, n)
    ensures forall a :: 0 <= a < n ==> Rows(bits[..], words, n)[a] == {}
  {
    words := if n == 0 then 1 else (n + 63) / 64;
    bits := new Word[n * words](_ => 0);
    forall a: nat | a < n ensures Rows(bits[..], words, n)[a] == {} {
      RowAt(bits[..], words, n, a);
      forall b: nat | b < 64 * words ensures !Has(bits[..], words, a, b) { BitOfZero(b % 64); }
    }
  }

  ghost predicate VisitedBelow(state: seq<nat>, n: int) {
    forall a :: 0 <= a < n && a < |state| ==> state[a] != 0
  }

  lemma VisitedMore(state: seq<nat>, root: int, state': seq<nat>)
    requires VisitedBelow(state, root) && Kept(state, root, state')
    ensures VisitedBelow(state', root + 1)
  {}

  lemma AllFinished(state: seq<nat>)
    requires VisitedBelow(state, |state|) && Idle(state)
    ensures forall a :: 0 <= a < |state| ==> state[a] == 2
  {}

  method Build(preds: seq<seq<int>>, stop: seq<bool>) returns (c: Closure)
    requires WellFormed(preds, stop)
    ensures BuiltOver(c, GraphOf(Kids(preds, stop)), |preds|)
  {
    var n := |preds|;
    var words, bits := NewMatrix(n);
    var state := seq(n, _ => 0);
    ghost var kids := Kids(preds, stop);
    ghost var finish: map<int, nat> := map[];
    var root := 0;
    while root < n
      invariant 0 <= root <= n && |state| == n && Fits(bits[..], words, n)
      invariant Idle(state) && Numbered(state, finish) && RowsOk(GraphOf(kids), Rows(bits[..], words, n), finish)
      invariant VisitedBelow(state, root)
    {
      ghost var before := state;
      if state[root] == 0 {
        state, finish := Search(preds, stop, bits, words, state, root, kids, finish);
      }
      VisitedMore(before, root, state);
      root := root + 1;
    }
    c := Closure(words, bits[..]);
    AllFinished(state);
    FinishedBuild(c, kids, state, finish);
  }

  /** A search that finished every node delivers the promise; finishing times give the converse. */
  lemma {:induction false} FinishedBuild(c: Closure, kids: seq<seq<int>>, state: seq<nat>, finish: map<int, nat>)
    requires InRange(kids) && Fits(c.bits, c.words, |kids|)
    requires Numbered(state, finish) && RowsOk(GraphOf(kids), Rows(c.bits, c.words, |kids|), finish)
    requires |state| == |kids| && forall a :: 0 <= a < |state| ==> state[a] == 2
    ensures BuiltOver(c, GraphOf(kids), |kids|)
  {
    var g := GraphOf(kids);
    var rows := Rows(c.bits, c.words, |kids|);
    forall a | 0 <= a < |rows|
      ensures RowSound(g, a, rows[a], finish) && (Antisymmetric(g) ==> RowFull(g, a, rows[a]))
    {
      assert a in finish;
    }
    if forall a :: 0 <= a < |rows| ==> RowFull(g, a, rows[a]) {
      forall a, b | Reaches(g, a, b) && Reaches(g, b, a) ensures a == b {
        if a in g && b in g {
          assert RowFull(g, a, rows[a]) && RowFull(g, b, rows[b]);
          assert RowSound(g, a, rows[a], finish) && RowSound(g, b, rows[b], finish);
        } else if a != b {
          var x := FirstStep(g, a, b);
          var y := FirstStep(g, b, a);
        }
      }
    }
  }

  /** Over two nodes that point at each other whatever is built misses a path. */
  lemma TwoNodeCycleIsIncomplete(c: Closure)
    requires BuiltOver(c, GraphOf(Kids([[1], [0]], [false, false])), 2)
    ensures var g := GraphOf(Kids([[1], [0]], [false, false]));
      exists a, b :: 0 <= a < 2 && 0 <= b < 2 && Reaches(g, a, b) && b !in Rows(c.bits, c.words, 2)[a]
  {
    var g := GraphOf(Kids([[1], [0]], [false, false]));
    TwoNodeCycle();
    var a :| 0 <= a < 2 && !RowFull(g, a, Rows(c.bits, c.words, 2)[a]);
    var b :| Reaches(g, a, b) && b !in Rows(c.bits, c.words, 2)[a];
    StaysInside(g, {0, 1}, a, b);
  }

  lemma TwoNodeCycle()
    ensures var g := GraphOf(Kids([[1], [0]], [false, false]));
      !Antisymmetric(g) && ClosedUnder(g, {0, 1})
  {
    var kids := Kids([[1], [0]], [false, false]);
    var g := GraphOf(kids);
    assert kids[0] == [1] && kids[1] == [0];
    assert g[0] == {1} && g[1] == {0} && Edge(g, 0, 1) && Edge(g, 1, 0);
    EdgeReaches(g, 0, 1);
    EdgeReaches(g, 1, 0);
  }
}
