/**
 * The work stack of the native backfill, step by step:
 * crates/cordial-f1r3node-adapter/src/native_live_runner.rs.
 */
module BackfillWalk {
  import opened Basics
  import opened ByteOrder
  import opened Native
  import opened Sorting

  datatype Work = Enter(block: NativeMessage) | Apply(block: NativeMessage)

  datatype BackfillError =
    | InvalidHash | Cycle(hash: Bytes) | BackfillLimit(max: nat)
    | InvalidWindow | HeightOutsideWindow(actual: int) | MissingHeight(height: int)
    | MissingBlock(hash: Bytes) | HashMismatch(hash: Bytes)
    | IngressFailed(error: NativeError)

  /** The local block store, by hash. */
  type BlockSource = Bytes -> Option<NativeMessage>

  /** What is asked for: a block, the store that holds its ancestry, and how many blocks may be fetched. */
  datatype Request = Request(source: BlockSource, target: NativeMessage, max: nat)

  function Read(source: BlockSource, hash: Bytes): (r: Result<NativeMessage, BackfillError>)
    ensures r.Ok? ==> r.value.blockHash == hash && source(hash) == Some(r.value)
    ensures r == Err(MissingBlock(hash)) <==> source(hash) == None
    ensures r == Err(HashMismatch(hash)) <==> source(hash).Some? && source(hash).value.blockHash != hash
    ensures r.Err? ==> r.error == MissingBlock(hash) || r.error == HashMismatch(hash)
  {
    match source(hash)
    case None => Err(MissingBlock(hash))
    case Some(msg) => if msg.blockHash != hash then Err(HashMismatch(hash)) else Ok(msg)
  }

  // ---- the dependencies of a message, sorted and without repetition ----

  function JustifiedHashes(js: seq<Justification>): seq<Bytes> {
    if js == [] then [] else [js[0].latestBlockHash] + JustifiedHashes(js[1..])
  }

  /** Drop every element that repeats its neighbour. */
  function Dedup(s: seq<Bytes>): seq<Bytes> {
    if |s| <= 1 then s
    else if s[0] == s[1] then Dedup(s[1..])
    else [s[0]] + Dedup(s[1..])
  }

  function SortedDependencies(msg: NativeMessage): seq<Bytes> {
    Dedup(Sort(BytesLe, msg.parents + JustifiedHashes(msg.justifications)))
  }

  lemma {:induction false} JustifiedHashesAre(js: seq<Justification>)
    ensures forall h :: h in JustifiedHashes(js) <==> exists j :: j in js && j.latestBlockHash == h
  {
    if js != [] {
      JustifiedHashesAre(js[1..]);
      assert js == [js[0]] + js[1..];
    }
  }

  lemma {:induction false} DedupSorted(s: seq<Bytes>)
    requires Sorted(BytesLe, s)
    ensures Distinct(Dedup(s)) && forall d :: d in Dedup(s) <==> d in s
  {
    if |s| > 1 {
      var rest := s[1..];
      DedupSorted(rest);
      assert s == [s[0]] + rest;
      if s[0] != s[1] { HeadIsAlone(s); }
    }
  }

  lemma HeadIsAlone(s: seq<Bytes>)
    requires Sorted(BytesLe, s) && |s| > 1 && s[0] != s[1]
    ensures s[0] !in s[1..]
  {
    if s[0] in s[1..] {
      var k :| 1 <= k < |s| && s[k] == s[0];
      assert BytesLe(s[0], s[1]) && (k == 1 || BytesLe(s[1], s[k]));
      BytesAntisymmetric(s[0], s[1]);
    }
  }

  /** The list holds exactly the dependencies, each once. */
  lemma {:induction false} SortedDependenciesAre(msg: NativeMessage)
    ensures AsSet(SortedDependencies(msg)) == Dependencies(msg) && Distinct(SortedDependencies(msg))
  {
    var listed := msg.parents + JustifiedHashes(msg.justifications);
    BytesOrdered();
    SortSorted(BytesLe, listed);
    SortKeeps(BytesLe, listed);
    DedupSorted(Sort(BytesLe, listed));
    JustifiedHashesAre(msg.justifications);
    assert forall d :: d in listed <==> d in Dependencies(msg);
  }

  lemma AsSetFront(deps: seq<Bytes>)
    requires Distinct(deps) && deps != []
    ensures var front, d := deps[..|deps| - 1], deps[|deps| - 1];
      AsSet(front) == AsSet(deps) - {d} && d in AsSet(deps) && Distinct(front)
  {
    var front, d := deps[..|deps| - 1], deps[|deps| - 1];
    assert deps == front + [d];
    forall x | x in front ensures x != d {
      var k :| 0 <= k < |front| && front[k] == x;
      assert deps[k] != deps[|deps| - 1];
    }
  }

  // ---- the steps of the walk ----

  datatype Walk = Walk(stack: seq<Work>, ancestry: set<Bytes>, fetched: nat)

  function Pushed(w: Walk, msg: NativeMessage): Walk {
    Walk(w.stack + [Enter(msg)], w.ancestry, w.fetched + 1)
  }

  /** Replace the entry of a block by its waiting form. */
  function Turned(w: Walk, stack: seq<Work>, block: NativeMessage): Walk {
    Walk(stack + [Apply(block)], w.ancestry + {block.blockHash}, w.fetched)
  }

  /** Fetch and push the dependencies that are not indexed, the last one first. */
  function PushAll(q: Request, indexed: set<Bytes>, deps: seq<Bytes>, w: Walk): Result<Walk, BackfillError> {
    if deps == [] then Ok(w)
    else
      var front, d := deps[..|deps| - 1], deps[|deps| - 1];
      if d in indexed then PushAll(q, indexed, front, w)
      else if d in w.ancestry then Err(Cycle(d))
      else if w.fetched >= q.max then Err(BackfillLimit(q.max))
      else
        match Read(q.source, d)
        case Err(e) => Err(e)
        case Ok(msg) => PushAll(q, indexed, front, Pushed(w, msg))
  }

  predicate AllHashes(hashes: set<Bytes>) {
    forall d :: d in hashes ==> |d| == 32
  }

  /** Visit the block on top of the stack: skip it when indexed, otherwise wait for its dependencies. */
  function EnterTop(q: Request, indexed: set<Bytes>, w: Walk): Result<Walk, BackfillError>
    requires w.stack != [] && w.stack[|w.stack| - 1].Enter?
  {
    var block, stack := w.stack[|w.stack| - 1].block, w.stack[..|w.stack| - 1];
    if |block.blockHash| != 32 then Err(InvalidHash)
    else if block.blockHash in indexed then Ok(w.(stack := stack))
    else if block.blockHash in w.ancestry then Err(Cycle(block.blockHash))
    else if !AllHashes(Dependencies(block)) then Err(InvalidHash)
    else PushAll(q, indexed, SortedDependencies(block), Turned(w, stack, block))
  }

  // ---- the work stack ----

  /** The blocks waiting to be applied, from the target inwards. */
  ghost function Waiting(stack: seq<Work>): seq<NativeMessage> {
    if stack == [] then []
    else
      var front, last := stack[..|stack| - 1], stack[|stack| - 1];
      if last.Apply? then Waiting(front) + [last.block] else Waiting(front)
  }

  ghost function Hashes(msgs: seq<NativeMessage>): set<Bytes> {
    set m | m in msgs :: m.blockHash
  }

  /** A direct dependency of the innermost waiting block. */
  ghost predicate NextOf(waiting: seq<NativeMessage>, h: Bytes) {
    waiting != [] && |h| == 32 && h in Dependencies(waiting[|waiting| - 1])
  }

  /**
   * Every entry above the first is a direct dependency of the nearest waiting block below it,
   * and no entry repeats a block that waits below it.
   */
  ghost predicate Linked(stack: seq<Work>) {
    stack == [] ||
    var front, last := stack[..|stack| - 1], stack[|stack| - 1];
    && Linked(front)
    && last.block.blockHash !in Hashes(Waiting(front))
    && (last.Apply? ==> |last.block.blockHash| == 32)
    && (front != [] ==> NextOf(Waiting(front), last.block.blockHash))
  }

  /** `d` is indexed, or still on the stack above position `i`. */
  ghost predicate Served(stack: seq<Work>, indexed: set<Bytes>, i: int, d: Bytes) {
    d in indexed || exists j :: i < j < |stack| && 0 <= j && stack[j].block.blockHash == d
  }

  /** The target and every dependency of a waiting block are served; the block at `top` may still lack `rest`. */
  ghost predicate Covered(stack: seq<Work>, indexed: set<Bytes>, goal: Bytes, top: int, rest: set<Bytes>) {
    && Served(stack, indexed, -1, goal)
    && (forall i, d ::
        0 <= i < |stack| && stack[i].Apply? && d in Dependencies(stack[i].block) && !(i == top && d in rest) ==>
        Served(stack, indexed, i, d))
  }

  lemma ServedPop(stack: seq<Work>, work: Work, indexed: set<Bytes>, indexed': set<Bytes>, i: int, d: Bytes)
    requires Served(stack + [work], indexed, i, d) && indexed <= indexed' && work.block.blockHash in indexed'
    requires i < |stack|
    ensures Served(stack, indexed', i, d)
  {
    if d !in indexed {
      var j :| i < j < |stack + [work]| && 0 <= j && (stack + [work])[j].block.blockHash == d;
      assert j < |stack| ==> stack[j].block.blockHash == d;
    }
  }

  lemma ServedPush(stack: seq<Work>, work: Work, indexed: set<Bytes>, i: int, d: Bytes)
    requires Served(stack, indexed, i, d)
    ensures Served(stack + [work], indexed, i, d)
  {
    if d !in indexed {
      var j :| i < j < |stack| && 0 <= j && stack[j].block.blockHash == d;
      assert (stack + [work])[j].block.blockHash == d;
    }
  }

  /** Entering a block turns its entry into a waiting one, all of whose dependencies are still to be looked at. */
  lemma ServedTurn(stack: seq<Work>, block: NativeMessage, indexed: set<Bytes>, i: int, d: Bytes)
    requires Served(stack + [Enter(block)], indexed, i, d)
    ensures Served(stack + [Apply(block)], indexed, i, d)
  {
    if d !in indexed {
      var j :| i < j < |stack + [Enter(block)]| && 0 <= j && (stack + [Enter(block)])[j].block.blockHash == d;
      assert (stack + [Apply(block)])[j].block.blockHash == d;
    }
  }

  /** A finished entry may leave the stack. */
  lemma PopCovered(stack: seq<Work>, work: Work, indexed: set<Bytes>, indexed': set<Bytes>, goal: Bytes)
    requires Covered(stack + [work], indexed, goal, -1, {}) && indexed <= indexed' && work.block.blockHash in indexed'
    ensures Covered(stack, indexed', goal, -1, {})
  {
    ServedPop(stack, work, indexed, indexed', -1, goal);
    forall i, d | 0 <= i < |stack| && stack[i].Apply? && d in Dependencies(stack[i].block)
      ensures Served(stack, indexed', i, d)
    {
      assert (stack + [work])[i] == stack[i];
      ServedPop(stack, work, indexed, indexed', i, d);
    }
  }

  lemma TurnCovered(stack: seq<Work>, block: NativeMessage, indexed: set<Bytes>, goal: Bytes)
    requires Covered(stack + [Enter(block)], indexed, goal, -1, {})
    ensures Covered(stack + [Apply(block)], indexed, goal, |stack|, Dependencies(block))
  {
    ServedTurn(stack, block, indexed, -1, goal);
    var s, s' := stack + [Enter(block)], stack + [Apply(block)];
    forall i, d | 0 <= i < |s'| && s'[i].Apply? && d in Dependencies(s'[i].block) &&
                  !(i == |stack| && d in Dependencies(block))
      ensures Served(s', indexed, i, d)
    {
      assert s[i] == s'[i];
      ServedTurn(stack, block, indexed, i, d);
    }
  }

  /** A dependency is settled when it is indexed or its entry was pushed. */
  lemma SettleCovered(stack: seq<Work>, indexed: set<Bytes>, goal: Bytes, top: int, rest: set<Bytes>, d: Bytes)
    requires Covered(stack, indexed, goal, top, rest) && Served(stack, indexed, top, d)
    ensures Covered(stack, indexed, goal, top, rest - {d})
  {}

  lemma PushCovered(stack: seq<Work>, work: Work, indexed: set<Bytes>, goal: Bytes, top: int, rest: set<Bytes>)
    requires Covered(stack, indexed, goal, top, rest) && work.Enter? && top < |stack|
    ensures Covered(stack + [work], indexed, goal, top, rest - {work.block.blockHash})
  {
    var s', h := stack + [work], work.block.blockHash;
    ServedPush(stack, work, indexed, -1, goal);
    forall i, d | 0 <= i < |s'| && s'[i].Apply? && d in Dependencies(s'[i].block) && !(i == top && d in rest)
      ensures Served(s', indexed, i, d)
    {
      assert s'[i] == stack[i];
      ServedPush(stack, work, indexed, i, d);
    }
    assert s'[|stack|].block.blockHash == h;
    SettleCovered(s', indexed, goal, top, rest, h);
  }

  /** Blocks that came from the caller or from the source under their own hash. */
  ghost predicate Sourced(q: Request, stack: seq<Work>) {
    forall i :: 0 <= i < |stack| ==> Origin(q, stack[i].block)
  }

  ghost predicate Origin(q: Request, msg: NativeMessage) {
    msg == q.target || q.source(msg.blockHash) == Some(msg)
  }

  ghost function Enters(stack: seq<Work>): nat {
    if stack == [] then 0 else Enters(stack[..|stack| - 1]) + if stack[|stack| - 1].Enter? then 1 else 0
  }

  lemma Popped(stack: seq<Work>, work: Work)
    ensures (stack + [work])[..|stack + [work]| - 1] == stack
  {}

  lemma PushLinked(stack: seq<Work>, work: Work)
    requires Linked(stack) && work.block.blockHash !in Hashes(Waiting(stack))
    requires work.Apply? ==> |work.block.blockHash| == 32
    requires stack != [] ==> NextOf(Waiting(stack), work.block.blockHash)
    ensures Linked(stack + [work])
    ensures Waiting(stack + [work]) == if work.Apply? then Waiting(stack) + [work.block] else Waiting(stack)
    ensures Enters(stack + [work]) == Enters(stack) + if work.Enter? then 1 else 0
  {
    Popped(stack, work);
  }

  // ---- dependency paths and cycles ----

  /** Messages each of which depends on the next. */
  ghost predicate DependencyPath(msgs: seq<NativeMessage>) {
    forall k :: 0 < k < |msgs| ==> msgs[k].blockHash in Dependencies(msgs[k - 1])
  }

  /** A genuine cycle through `h`: a path from the block `h` whose last block depends on `h`. */
  ghost predicate GenuineCycle(q: Request, msgs: seq<NativeMessage>, h: Bytes) {
    && msgs != [] && msgs[0].blockHash == h && DependencyPath(msgs) && h in Dependencies(msgs[|msgs| - 1])
    && forall m :: m in msgs ==> Origin(q, m)
  }

  /** A path from the target through blocks that were missing from the index at the start. */
  ghost predicate MissingPath(q: Request, was: set<Bytes>, path: seq<NativeMessage>) {
    && path != [] && path[0] == q.target && DependencyPath(path)
    && forall m :: m in path ==> Origin(q, m) && m.blockHash !in was
  }

  lemma {:induction false} WaitingIsPath(stack: seq<Work>)
    requires Linked(stack)
    ensures DependencyPath(Waiting(stack))
    ensures Waiting(stack) != [] ==> Waiting(stack)[0] == stack[0].block
  {
    if stack != [] { WaitingIsPath(stack[..|stack| - 1]); }
  }

  lemma {:induction false} WaitingIsSourced(q: Request, stack: seq<Work>)
    requires Sourced(q, stack)
    ensures forall m :: m in Waiting(stack) ==> Origin(q, m)
  {
    if stack != [] { WaitingIsSourced(q, stack[..|stack| - 1]); }
  }

  lemma WaitingIsMissing(q: Request, was: set<Bytes>, stack: seq<Work>)
    requires Linked(stack) && Sourced(q, stack) && Waiting(stack) != [] && stack[0].block == q.target
    requires Hashes(Waiting(stack)) !! was
    ensures MissingPath(q, was, Waiting(stack))
  {
    WaitingIsPath(stack);
    WaitingIsSourced(q, stack);
    forall m | m in Waiting(stack) ensures m.blockHash !in was { assert m.blockHash in Hashes(Waiting(stack)); }
  }

  lemma SuffixIsPath(msgs: seq<NativeMessage>, k: int)
    requires DependencyPath(msgs) && 0 <= k < |msgs|
    ensures DependencyPath(msgs[k..]) && msgs[k..][|msgs| - k - 1] == msgs[|msgs| - 1]
    ensures forall m :: m in msgs[k..] ==> m in msgs
  {
    var suffix := msgs[k..];
    forall j | 0 < j < |suffix| ensures suffix[j].blockHash in Dependencies(suffix[j - 1]) {
      assert suffix[j] == msgs[k + j] && suffix[j - 1] == msgs[k + j - 1];
    }
  }

  /** A dependency of the innermost waiting block that is itself waiting closes a cycle. */
  lemma CycleThrough(q: Request, stack: seq<Work>, h: Bytes) returns (msgs: seq<NativeMessage>)
    requires Linked(stack) && Sourced(q, stack) && h in Hashes(Waiting(stack)) && NextOf(Waiting(stack), h)
    ensures GenuineCycle(q, msgs, h)
  {
    WaitingIsPath(stack);
    WaitingIsSourced(q, stack);
    msgs := CloseCycle(q, Waiting(stack), h);
  }

  lemma CloseCycle(q: Request, w: seq<NativeMessage>, h: Bytes) returns (msgs: seq<NativeMessage>)
    requires DependencyPath(w) && h in Hashes(w) && h in Dependencies(w[|w| - 1])
    requires forall m :: m in w ==> Origin(q, m)
    ensures GenuineCycle(q, msgs, h)
  {
    var m :| m in w && m.blockHash == h;
    var k :| 0 <= k < |w| && w[k] == m;
    SuffixIsPath(w, k);
    msgs := w[k..];
  }

  // ---- what was fetched, and for whom ----

  /** One block fetched because a missing block depends on it. */
  datatype Fetch = Fetch(parent: Bytes, dependency: Bytes)

  /** A dependency edge inside the missing ancestry of the target. */
  ghost predicate MissingEdge(q: Request, was: set<Bytes>, f: Fetch) {
    f.dependency !in was && exists path :: MissingPath(q, was, path) && EndsWith(path, f)
  }

  ghost predicate EndsWith(path: seq<NativeMessage>, f: Fetch) {
    path != [] && path[|path| - 1].blockHash == f.parent && f.dependency in Dependencies(path[|path| - 1])
  }

  ghost predicate AllMissing(q: Request, was: set<Bytes>, edges: set<Fetch>) {
    forall f :: f in edges ==> MissingEdge(q, was, f)
  }

  /** Every fetch so far followed another missing edge, out of a block that was entered. */
  ghost predicate LogOk(q: Request, was: set<Bytes>, log: set<Fetch>, fetched: nat, entered: set<Bytes>) {
    |log| == fetched && AllMissing(q, was, log) && forall f :: f in log ==> f.parent in entered
  }

  // ---- the invariant of the walk ----

  ghost predicate WalkOk(q: Request, was: set<Bytes>, w: Walk, indexed: set<Bytes>, log: set<Fetch>) {
    match w
    case Walk(stack, ancestry, fetched) =>
      && Shape(q, was, w, indexed) && fetched <= q.max
      && Covered(stack, indexed, q.target.blockHash, -1, {})
      && LogOk(q, was, log, fetched, ancestry + indexed)
  }

  ghost predicate Shape(q: Request, was: set<Bytes>, w: Walk, indexed: set<Bytes>) {
    && Linked(w.stack) && Sourced(q, w.stack) && (w.stack != [] ==> w.stack[0].block == q.target)
    && w.ancestry == Hashes(Waiting(w.stack)) && w.ancestry !! indexed && was <= indexed
  }

  /** The walk while the dependencies of the block at `top` are being pushed; `rest` is still to be looked at. */
  ghost predicate Expanding(q: Request, was: set<Bytes>, w: Walk, indexed: set<Bytes>, log: set<Fetch>,
                            top: int, rest: set<Bytes>)
  {
    match w
    case Walk(stack, ancestry, fetched) =>
      && Shape(q, was, w, indexed) && fetched <= q.max
      && 0 <= top < |stack| && Waiting(stack) != []
      && AllHashes(rest) && rest <= Dependencies(Innermost(w))
      && Covered(stack, indexed, q.target.blockHash, top, rest)
      && LogOk(q, was, log, fetched, ancestry + indexed)
      && Untouched(log, Innermost(w).blockHash, rest)
  }

  /** Nothing in `rest` was fetched for this block yet. */
  ghost predicate Untouched(log: set<Fetch>, parent: Bytes, rest: set<Bytes>) {
    forall f :: f in log && f.parent == parent ==> f.dependency !in rest
  }

  ghost function Innermost(w: Walk): NativeMessage
    requires Waiting(w.stack) != []
  {
    Waiting(w.stack)[|Waiting(w.stack)| - 1]
  }

  /** Pushed entries and unfetched budget; every step of the walk makes it smaller. */
  ghost function Effort(w: Walk, max: nat): int {
    3 * (max - w.fetched) + |w.stack| + Enters(w.stack)
  }

  // ---- what a refusal says ----

  /** What each refusal says about the source and the request. */
  ghost predicate Explains(q: Request, was: set<Bytes>, indexed: set<Bytes>, e: BackfillError) {
    match e
    case Cycle(h) => exists msgs :: GenuineCycle(q, msgs, h)
    case BackfillLimit(n) => n == q.max && exists edges :: AllMissing(q, was, edges) && |edges| > q.max
    case InvalidHash => |q.target.blockHash| != 32 || exists path :: MissingPath(q, was, path) && HasBadHash(path)
    case MissingBlock(h) => q.source(h) == None && Wanted(q, was, indexed, h)
    case HashMismatch(h) =>
      q.source(h).Some? && q.source(h).value.blockHash != h && Wanted(q, was, indexed, h)
    case IngressFailed(error) => !error.UnresolvedParent?
    case _ => false
  }

  ghost predicate HasBadHash(path: seq<NativeMessage>) {
    path != [] && !AllHashes(Dependencies(path[|path| - 1]))
  }

  /** An unindexed block that a missing block depends on. */
  ghost predicate Wanted(q: Request, was: set<Bytes>, indexed: set<Bytes>, h: Bytes) {
    h !in indexed && exists f :: MissingEdge(q, was, f) && f.dependency == h
  }

  /** A budget that covers the dependency edges of the missing ancestry is never exceeded. */
  lemma BudgetSuffices(q: Request, was: set<Bytes>, indexed: set<Bytes>, edges: set<Fetch>, n: nat)
    requires forall f :: MissingEdge(q, was, f) ==> f in edges
    requires |edges| <= q.max
    ensures !Explains(q, was, indexed, BackfillLimit(n))
  {
    forall more | AllMissing(q, was, more) ensures |more| <= |edges| {
      assert more <= edges;
      SubsetSize(more, edges);
    }
  }

  /** No block is a dependency of two blocks of the missing ancestry. */
  ghost predicate NothingShared(q: Request, was: set<Bytes>) {
    forall f, g :: MissingEdge(q, was, f) && MissingEdge(q, was, g) && f.dependency == g.dependency ==> f == g
  }

  /** Then a limit of `n` says what it seems to say: more than `n` blocks are missing. */
  lemma LimitCountsBlocks(q: Request, was: set<Bytes>, indexed: set<Bytes>, n: nat) returns (missing: set<Bytes>)
    requires NothingShared(q, was) && Explains(q, was, indexed, BackfillLimit(n))
    ensures |missing| > n && forall h :: h in missing ==> Wanted(q, was, was, h)
  {
    var edges :| AllMissing(q, was, edges) && |edges| > q.max;
    missing := set f: Fetch | f in edges :: f.dependency;
    DistinctDependencies(edges);
  }

  lemma {:induction false} DistinctDependencies(edges: set<Fetch>)
    requires forall f, g :: f in edges && g in edges && f.dependency == g.dependency ==> f == g
    ensures |set f | f in edges :: f.dependency| == |edges|
  {
    if edges != {} {
      var f :| f in edges;
      DistinctDependencies(edges - {f});
      assert (set g | g in edges :: g.dependency) == (set g | g in edges - {f} :: g.dependency) + {f.dependency};
    }
  }

  // ---- pushing keeps the invariant ----

  lemma InnermostEdge(q: Request, was: set<Bytes>, w: Walk, indexed: set<Bytes>, d: Bytes)
    requires Shape(q, was, w, indexed) && Waiting(w.stack) != [] && d in Dependencies(Innermost(w)) && d !in was
    ensures MissingEdge(q, was, Fetch(Innermost(w).blockHash, d))
  {
    WaitingIsMissing(q, was, w.stack);
    assert EndsWith(Waiting(w.stack), Fetch(Innermost(w).blockHash, d));
  }

  lemma PushShape(q: Request, was: set<Bytes>, w: Walk, indexed: set<Bytes>, msg: NativeMessage)
    requires Shape(q, was, w, indexed) && w.stack != [] && NextOf(Waiting(w.stack), msg.blockHash)
    requires msg.blockHash !in w.ancestry && q.source(msg.blockHash) == Some(msg)
    ensures Shape(q, was, Pushed(w, msg), indexed) && Waiting(Pushed(w, msg).stack) == Waiting(w.stack)
    ensures Effort(Pushed(w, msg), q.max) < Effort(w, q.max)
  {
    PushLinked(w.stack, Enter(msg));
  }

  lemma LogGrows(q: Request, was: set<Bytes>, log: set<Fetch>, fetched: nat, entered: set<Bytes>, f: Fetch)
    requires LogOk(q, was, log, fetched, entered) && f !in log && MissingEdge(q, was, f) && f.parent in entered
    ensures LogOk(q, was, log + {f}, fetched + 1, entered)
  {}

  lemma {:induction false} PushKeeps(q: Request, was: set<Bytes>, w: Walk, indexed: set<Bytes>, log: set<Fetch>,
                                     top: int, rest: set<Bytes>, msg: NativeMessage)
    requires Expanding(q, was, w, indexed, log, top, rest) && w.fetched < q.max
    requires msg.blockHash in rest && msg.blockHash !in w.ancestry + indexed
    requires q.source(msg.blockHash) == Some(msg)
    ensures var f := Fetch(Innermost(w).blockHash, msg.blockHash);
      f !in log && Expanding(q, was, Pushed(w, msg), indexed, log + {f}, top, rest - {msg.blockHash})
    ensures Effort(Pushed(w, msg), q.max) < Effort(w, q.max)
  {
    var f := Fetch(Innermost(w).blockHash, msg.blockHash);
    PushLogged(q, was, w, indexed, log, top, rest, msg.blockHash);
    PushPlaced(q, was, w, indexed, log, top, rest, msg);
    PushedExpands(q, was, w, indexed, log + {f}, top, rest - {msg.blockHash}, msg);
  }

  lemma PushLogged(q: Request, was: set<Bytes>, w: Walk, indexed: set<Bytes>, log: set<Fetch>,
                   top: int, rest: set<Bytes>, d: Bytes)
    requires Expanding(q, was, w, indexed, log, top, rest) && d in rest && d !in indexed
    ensures var f := Fetch(Innermost(w).blockHash, d);
      && f !in log && LogOk(q, was, log + {f}, w.fetched + 1, w.ancestry + indexed)
      && Untouched(log + {f}, f.parent, rest - {d})
  {
    FreshEdge(log, Innermost(w).blockHash, rest, d);
    LogKeeps(q, was, w, indexed, log, d);
  }

  lemma PushPlaced(q: Request, was: set<Bytes>, w: Walk, indexed: set<Bytes>, log: set<Fetch>,
                   top: int, rest: set<Bytes>, msg: NativeMessage)
    requires Expanding(q, was, w, indexed, log, top, rest) && msg.blockHash in rest && msg.blockHash !in w.ancestry
    requires q.source(msg.blockHash) == Some(msg)
    ensures Shape(q, was, Pushed(w, msg), indexed) && Waiting(Pushed(w, msg).stack) == Waiting(w.stack)
    ensures Effort(Pushed(w, msg), q.max) < Effort(w, q.max)
    ensures Covered(w.stack + [Enter(msg)], indexed, q.target.blockHash, top, rest - {msg.blockHash})
  {
    PushShape(q, was, w, indexed, msg);
    PushCovered(w.stack, Enter(msg), indexed, q.target.blockHash, top, rest);
  }

  lemma LogKeeps(q: Request, was: set<Bytes>, w: Walk, indexed: set<Bytes>, log: set<Fetch>, d: Bytes)
    requires Shape(q, was, w, indexed) && Waiting(w.stack) != [] && d in Dependencies(Innermost(w)) && d !in was
    requires LogOk(q, was, log, w.fetched, w.ancestry + indexed) && Fetch(Innermost(w).blockHash, d) !in log
    ensures LogOk(q, was, log + {Fetch(Innermost(w).blockHash, d)}, w.fetched + 1, w.ancestry + indexed)
  {
    InnermostEdge(q, was, w, indexed, d);
    InnermostWaits(w);
    LogGrows(q, was, log, w.fetched, w.ancestry + indexed, Fetch(Innermost(w).blockHash, d));
  }

  lemma PushedExpands(q: Request, was: set<Bytes>, w: Walk, indexed: set<Bytes>, log: set<Fetch>,
                      top: int, rest: set<Bytes>, msg: NativeMessage)
    requires Shape(q, was, Pushed(w, msg), indexed) && Waiting(Pushed(w, msg).stack) == Waiting(w.stack) != []
    requires 0 <= top < |w.stack| && w.fetched < q.max
    requires AllHashes(rest) && rest <= Dependencies(Innermost(w))
    requires Covered(w.stack + [Enter(msg)], indexed, q.target.blockHash, top, rest)
    requires LogOk(q, was, log, w.fetched + 1, w.ancestry + indexed) && Untouched(log, Innermost(w).blockHash, rest)
    ensures Expanding(q, was, Pushed(w, msg), indexed, log, top, rest)
  {}

  lemma FreshEdge(log: set<Fetch>, parent: Bytes, rest: set<Bytes>, d: Bytes)
    requires Untouched(log, parent, rest) && d in rest
    ensures Fetch(parent, d) !in log && Untouched(log + {Fetch(parent, d)}, parent, rest - {d})
  {}

  lemma InnermostWaits(w: Walk)
    requires Waiting(w.stack) != []
    ensures Innermost(w).blockHash in Hashes(Waiting(w.stack))
  {}

  lemma SettleKeeps(q: Request, was: set<Bytes>, w: Walk, indexed: set<Bytes>, log: set<Fetch>,
                    top: int, rest: set<Bytes>, d: Bytes)
    requires Expanding(q, was, w, indexed, log, top, rest) && d in indexed
    ensures Expanding(q, was, w, indexed, log, top, rest - {d})
  {
    SettleCovered(w.stack, indexed, q.target.blockHash, top, rest, d);
  }

  lemma AllSettled(q: Request, was: set<Bytes>, w: Walk, indexed: set<Bytes>, log: set<Fetch>, top: int)
    requires Expanding(q, was, w, indexed, log, top, {})
    ensures WalkOk(q, was, w, indexed, log)
  {}

  /** Why pushing a dependency is refused. */
  lemma {:induction false} RefusalExplained(q: Request, was: set<Bytes>, w: Walk, indexed: set<Bytes>, log: set<Fetch>,
                                            top: int, rest: set<Bytes>, d: Bytes)
    requires Expanding(q, was, w, indexed, log, top, rest) && d in rest && d !in indexed
    ensures d in w.ancestry ==> Explains(q, was, indexed, Cycle(d))
    ensures w.fetched >= q.max ==> Explains(q, was, indexed, BackfillLimit(q.max))
    ensures Read(q.source, d).Err? ==> Explains(q, was, indexed, Read(q.source, d).error)
  {
    if d in w.ancestry { var msgs := CycleThrough(q, w.stack, d); }
    var f := Fetch(Innermost(w).blockHash, d);
    InnermostEdge(q, was, w, indexed, d);
    OneEdgeTooMany(q, was, log, w.fetched, w.ancestry + indexed, indexed, f);
    ReadExplained(q, was, indexed, f);
  }

  lemma OneEdgeTooMany(q: Request, was: set<Bytes>, log: set<Fetch>, fetched: nat, entered: set<Bytes>,
                       indexed: set<Bytes>, f: Fetch)
    requires LogOk(q, was, log, fetched, entered) && f !in log && MissingEdge(q, was, f)
    ensures fetched >= q.max ==> Explains(q, was, indexed, BackfillLimit(q.max))
  {
    assert AllMissing(q, was, log + {f}) && |log + {f}| == fetched + 1;
  }

  lemma ReadExplained(q: Request, was: set<Bytes>, indexed: set<Bytes>, f: Fetch)
    requires MissingEdge(q, was, f) && f.dependency !in indexed
    ensures Read(q.source, f.dependency).Err? ==> Explains(q, was, indexed, Read(q.source, f.dependency).error)
  {}

  /** Pushing dependencies keeps the walk sound, within budget and with less to do, or is refused for a reason. */
  lemma {:induction false} PushAllKeeps(q: Request, was: set<Bytes>, indexed: set<Bytes>, deps: seq<Bytes>,
                                        w: Walk, log: set<Fetch>, top: int) returns (log': set<Fetch>)
    requires Expanding(q, was, w, indexed, log, top, AsSet(deps)) && Distinct(deps)
    ensures match PushAll(q, indexed, deps, w)
      case Ok(w') => WalkOk(q, was, w', indexed, log') && Effort(w', q.max) <= Effort(w, q.max)
      case Err(e) => Explains(q, was, indexed, e)
    ensures log <= log'
    decreases |deps|
  {
    log' := log;
    if deps == [] {
      assert AsSet(deps) == {};
      AllSettled(q, was, w, indexed, log, top);
    } else {
      var front, d := deps[..|deps| - 1], deps[|deps| - 1];
      AsSetFront(deps);
      if d in indexed {
        SettleKeeps(q, was, w, indexed, log, top, AsSet(deps), d);
        log' := PushAllKeeps(q, was, indexed, front, w, log, top);
      } else {
        RefusalExplained(q, was, w, indexed, log, top, AsSet(deps), d);
        if d !in w.ancestry && w.fetched < q.max && Read(q.source, d).Ok? {
          var msg := Read(q.source, d).value;
          PushKeeps(q, was, w, indexed, log, top, AsSet(deps), msg);
          log' := PushAllKeeps(q, was, indexed, front, Pushed(w, msg), log + {Fetch(Innermost(w).blockHash, d)}, top);
        }
      }
    }
  }

  // ---- entering keeps the invariant ----

  lemma TurnLinked(stack: seq<Work>, block: NativeMessage)
    requires Linked(stack + [Enter(block)]) && |block.blockHash| == 32
    ensures Linked(stack + [Apply(block)]) && block.blockHash !in Hashes(Waiting(stack))
    ensures Waiting(stack + [Apply(block)]) == Waiting(stack) + [block]
    ensures Waiting(stack + [Enter(block)]) == Waiting(stack)
    ensures Enters(stack + [Enter(block)]) == Enters(stack) + 1 && Enters(stack + [Apply(block)]) == Enters(stack)
  {
    Popped(stack, Enter(block));
    Popped(stack, Apply(block));
  }

  lemma HashesSnoc(msgs: seq<NativeMessage>, m: NativeMessage)
    ensures Hashes(msgs + [m]) == Hashes(msgs) + {m.blockHash}
  {
    assert (msgs + [m])[|msgs|] == m;
    assert forall x :: x in msgs + [m] <==> x in msgs || x == m;
  }

  lemma TurnSourced(q: Request, stack: seq<Work>, block: NativeMessage)
    requires Sourced(q, stack + [Enter(block)])
    ensures Sourced(q, stack + [Apply(block)]) && Sourced(q, stack)
  {
    forall i | 0 <= i < |stack| + 1 ensures Origin(q, (stack + [Apply(block)])[i].block) {
      assert (stack + [Apply(block)])[i].block == (stack + [Enter(block)])[i].block;
    }
    forall i | 0 <= i < |stack| ensures Origin(q, stack[i].block) {
      assert stack[i].block == (stack + [Enter(block)])[i].block;
    }
  }

  lemma {:induction false} TurnShape(q: Request, was: set<Bytes>, w: Walk, stack: seq<Work>, block: NativeMessage,
                                     indexed: set<Bytes>)
    requires Shape(q, was, w, indexed) && w.stack == stack + [Enter(block)] && |block.blockHash| == 32
    requires block.blockHash !in indexed
    ensures block.blockHash !in w.ancestry && Shape(q, was, Turned(w, stack, block), indexed)
    ensures Waiting(Turned(w, stack, block).stack) == Waiting(stack) + [block]
    ensures Effort(Turned(w, stack, block), q.max) < Effort(w, q.max)
  {
    TurnLinked(stack, block);
    TurnSourced(q, stack, block);
    HashesSnoc(Waiting(stack), block);
    assert (stack + [Apply(block)])[0].block == w.stack[0].block;
  }

  /** A block being entered is not waiting already, and it has not been fetched for before. */
  lemma {:induction false} TurnKeeps(q: Request, was: set<Bytes>, w: Walk, stack: seq<Work>, block: NativeMessage,
                                     indexed: set<Bytes>, log: set<Fetch>)
    requires WalkOk(q, was, w, indexed, log) && w.stack == stack + [Enter(block)] && |block.blockHash| == 32
    requires block.blockHash !in indexed
    ensures block.blockHash !in w.ancestry && forall f :: f in log ==> f.parent != block.blockHash
    ensures Effort(Turned(w, stack, block), q.max) < Effort(w, q.max)
    ensures var w' := Turned(w, stack, block);
      && Shape(q, was, w', indexed) && Waiting(w'.stack) == Waiting(stack) + [block]
      && (AllHashes(Dependencies(block)) ==>
          Expanding(q, was, w', indexed, log, |stack|, AsSet(SortedDependencies(block))))
  {
    TurnShape(q, was, w, stack, block, indexed);
    TurnCovered(stack, block, indexed, q.target.blockHash);
    SortedDependenciesAre(block);
    var waiting := Waiting(stack) + [block];
    assert waiting[|waiting| - 1] == block;
  }

  lemma SkipKeeps(q: Request, was: set<Bytes>, w: Walk, stack: seq<Work>, block: NativeMessage,
                  indexed: set<Bytes>, log: set<Fetch>)
    requires WalkOk(q, was, w, indexed, log) && w.stack == stack + [Enter(block)] && block.blockHash in indexed
    ensures WalkOk(q, was, w.(stack := stack), indexed, log)
    ensures Effort(w.(stack := stack), q.max) < Effort(w, q.max)
  {
    Popped(stack, Enter(block));
    PopCovered(stack, Enter(block), indexed, indexed, q.target.blockHash);
    TurnSourced(q, stack, block);
    assert stack != [] ==> stack[0] == w.stack[0];
  }

  /** Only the target can have a hash of another length; every other entry's hash was checked as a dependency. */
  lemma OnlyTargetIsUnchecked(stack: seq<Work>, block: NativeMessage)
    requires Linked(stack + [Enter(block)]) && |block.blockHash| != 32
    ensures stack == []
  {
    Popped(stack, Enter(block));
  }

  lemma {:induction false} BadDependencyExplained(q: Request, was: set<Bytes>, w: Walk, indexed: set<Bytes>,
                                                  block: NativeMessage)
    requires Shape(q, was, w, indexed) && Waiting(w.stack) != [] && Innermost(w) == block
    requires !AllHashes(Dependencies(block))
    ensures Explains(q, was, indexed, InvalidHash)
  {
    WaitingIsMissing(q, was, w.stack);
    assert HasBadHash(Waiting(w.stack));
  }

  /** One visit keeps the walk sound with less to do, or is refused for a reason; its own cycle check never fires. */
  lemma {:induction false} EnterKeeps(q: Request, was: set<Bytes>, w: Walk, indexed: set<Bytes>, log: set<Fetch>)
    returns (log': set<Fetch>)
    requires WalkOk(q, was, w, indexed, log) && w.stack != [] && w.stack[|w.stack| - 1].Enter?
    ensures match EnterTop(q, indexed, w)
      case Ok(w') => WalkOk(q, was, w', indexed, log') && Effort(w', q.max) < Effort(w, q.max)
      case Err(e) => Explains(q, was, indexed, e)
    ensures log <= log'
    ensures var block := w.stack[|w.stack| - 1].block;
      |block.blockHash| == 32 && block.blockHash !in indexed ==> block.blockHash !in w.ancestry
  {
    var block, stack := w.stack[|w.stack| - 1].block, w.stack[..|w.stack| - 1];
    assert w.stack == stack + [Enter(block)];
    log' := log;
    if |block.blockHash| != 32 {
      OnlyTargetIsUnchecked(stack, block);
    } else if block.blockHash in indexed {
      SkipKeeps(q, was, w, stack, block, indexed, log);
    } else {
      TurnKeeps(q, was, w, stack, block, indexed, log);
      var w' := Turned(w, stack, block);
      if AllHashes(Dependencies(block)) {
        SortedDependenciesAre(block);
        log' := PushAllKeeps(q, was, indexed, SortedDependencies(block), w', log, |stack|);
      } else {
        BadDependencyExplained(q, was, w', indexed, block);
      }
    }
  }

  lemma StartOk(q: Request, was: set<Bytes>)
    ensures WalkOk(q, was, Walk([Enter(q.target)], {}, 0), was, {})
  {
    var stack := [Enter(q.target)];
    Popped([], Enter(q.target));
    PushLinked([], Enter(q.target));
    assert [] + stack == stack;
    assert stack[0].block.blockHash == q.target.blockHash;
  }

  // ---- applying keeps the invariant ----

  /** A block that may be applied to an index with these keys. */
  ghost predicate Timely(q: Request, indexed: set<Bytes>, msg: NativeMessage) {
    Dependencies(msg) <= indexed && msg.blockHash !in indexed && Origin(q, msg)
  }

  lemma {:induction false} ApplyKeeps(q: Request, was: set<Bytes>, w: Walk, stack: seq<Work>, block: NativeMessage,
                                      indexed: set<Bytes>, log: set<Fetch>)
    requires WalkOk(q, was, w, indexed, log) && w.stack == stack + [Apply(block)]
    ensures Timely(q, indexed, block) && |block.blockHash| == 32
    ensures var w' := w.(stack := stack, ancestry := w.ancestry - {block.blockHash});
      WalkOk(q, was, w', indexed + {block.blockHash}, log) && Effort(w', q.max) < Effort(w, q.max)
  {
    AppliedCovered(stack, block, indexed, q.target.blockHash);
    AppliedLinked(stack, block);
    AppliedSourced(q, stack, block);
    HashesSnoc(Waiting(stack), block);
    assert block.blockHash in w.ancestry;
    assert w.ancestry - {block.blockHash} == Hashes(Waiting(stack));
    assert stack != [] ==> stack[0] == w.stack[0];
  }

  lemma {:induction false} AppliedCovered(stack: seq<Work>, block: NativeMessage, indexed: set<Bytes>, goal: Bytes)
    requires Covered(stack + [Apply(block)], indexed, goal, -1, {})
    ensures Dependencies(block) <= indexed && Covered(stack, indexed + {block.blockHash}, goal, -1, {})
  {
    var s := stack + [Apply(block)];
    forall d | d in Dependencies(block) ensures d in indexed {
      assert s[|stack|] == Apply(block);
      assert Served(s, indexed, |stack|, d);
    }
    PopCovered(stack, Apply(block), indexed, indexed + {block.blockHash}, goal);
  }

  lemma AppliedLinked(stack: seq<Work>, block: NativeMessage)
    requires Linked(stack + [Apply(block)])
    ensures Linked(stack) && block.blockHash !in Hashes(Waiting(stack)) && |block.blockHash| == 32
    ensures Waiting(stack + [Apply(block)]) == Waiting(stack) + [block]
    ensures Enters(stack + [Apply(block)]) == Enters(stack)
  {
    Popped(stack, Apply(block));
  }

  lemma AppliedSourced(q: Request, stack: seq<Work>, block: NativeMessage)
    requires Sourced(q, stack + [Apply(block)])
    ensures Sourced(q, stack) && Origin(q, block)
  {
    assert (stack + [Apply(block)])[|stack|].block == block;
    forall i | 0 <= i < |stack| ensures Origin(q, stack[i].block) {
      assert stack[i].block == (stack + [Apply(block)])[i].block;
    }
  }

  // ---- a shared ancestor is fetched more than once ----

  function Tagged(tag: byte): Hash {
    seq(32, _ => tag)
  }

  function Message(tag: byte, parents: seq<Bytes>): NativeMessage {
    NativeMessage(Tagged(tag), parents, [], 1, [], [], [], 0, [])
  }

  /** A target that depends on 1 and 2, where 1 depends on 2. */
  function Diamond(max: nat): Request {
    var one, two := Message(1, [Tagged(2)]), Message(2, []);
    Request((h: Bytes) => if h == Tagged(1) then Some(one) else if h == Tagged(2) then Some(two) else None,
            Message(3, [Tagged(1), Tagged(2)]), max)
  }

  /**
   * Two blocks are missing, yet a budget of two is refused: the ancestor that both the target and the other
   * block depend on is fetched once for each of them.
   */
  lemma DiamondExceedsItsBudget()
    ensures var q := Diamond(2);
      && EnterTop(q, {}, DiamondStart()) == Ok(DiamondFetched())
      && DiamondFetched().fetched == 2 && EnterTop(q, {}, DiamondFetched()) == Err(BackfillLimit(2))
  {
    DiamondDependencies();
    FirstVisit();
    SecondVisit();
  }

  function DiamondStart(): Walk {
    Walk([Enter(Diamond(2).target)], {}, 0)
  }

  /** After the first visit the target waits for both of its dependencies. */
  function DiamondFetched(): Walk {
    Walk([Apply(Diamond(2).target), Enter(Message(2, [])), Enter(Message(1, [Tagged(2)]))], {Tagged(3)}, 2)
  }

  lemma FirstVisit()
    requires SortedDependencies(Diamond(2).target) == [Tagged(1), Tagged(2)]
    requires AllHashes(Dependencies(Diamond(2).target))
    ensures EnterTop(Diamond(2), {}, DiamondStart()) == Ok(DiamondFetched())
  {
    var q := Diamond(2);
    assert [] + [Enter(q.target)] == [Enter(q.target)] && [] + [Apply(q.target)] == [Apply(q.target)];
    EnterFirst(q, q.target);
    FetchBoth(q, Walk([Apply(q.target)], {Tagged(3)}, 0));
  }

  /** Visiting the only block on the stack of a fresh walk. */
  lemma EnterFirst(q: Request, block: NativeMessage)
    requires |block.blockHash| == 32 && AllHashes(Dependencies(block))
    ensures EnterTop(q, {}, Walk([Enter(block)], {}, 0)) ==
      PushAll(q, {}, SortedDependencies(block), Walk([Apply(block)], {block.blockHash}, 0))
  {
    var w := Walk([Enter(block)], {}, 0);
    assert w.stack[..0] == [] && Turned(w, [], block) == Walk([Apply(block)], {block.blockHash}, 0);
  }

  lemma FetchBoth(q: Request, w: Walk)
    requires q == Diamond(2) && w == Walk([Apply(q.target)], {Tagged(3)}, 0)
    ensures PushAll(q, {}, [Tagged(1), Tagged(2)], w) == Ok(DiamondFetched())
  {
    var one, two := Message(1, [Tagged(2)]), Message(2, []);
    DiamondReads();
    assert [Tagged(1), Tagged(2)][..1] == [Tagged(1)] && [Tagged(1)][..0] == [];
    PushLast(q, [Tagged(1), Tagged(2)], w, two);
    PushLast(q, [Tagged(1)], Pushed(w, two), one);
    assert Pushed(Pushed(w, two), one) == DiamondFetched();
  }

  lemma DiamondReads()
    ensures Read(Diamond(2).source, Tagged(1)) == Ok(Message(1, [Tagged(2)]))
    ensures Read(Diamond(2).source, Tagged(2)) == Ok(Message(2, []))
    ensures Tagged(1) != Tagged(3) && Tagged(2) != Tagged(3)
  {
    DistinctTags();
  }

  lemma PushLast(q: Request, deps: seq<Bytes>, w: Walk, msg: NativeMessage)
    requires deps != [] && deps[|deps| - 1] == msg.blockHash && Read(q.source, msg.blockHash) == Ok(msg)
    requires msg.blockHash !in w.ancestry && w.fetched < q.max
    ensures PushAll(q, {}, deps, w) == PushAll(q, {}, deps[..|deps| - 1], Pushed(w, msg))
  {}

  lemma SecondVisit()
    requires SortedDependencies(Message(1, [Tagged(2)])) == [Tagged(2)]
    requires AllHashes(Dependencies(Message(1, [Tagged(2)])))
    ensures EnterTop(Diamond(2), {}, DiamondFetched()) == Err(BackfillLimit(2))
  {
    DistinctTags();
    var w := DiamondFetched();
    assert w.stack[2] == Enter(Message(1, [Tagged(2)]));
  }

  lemma DistinctTags()
    ensures Tagged(1) != Tagged(2) && Tagged(1) != Tagged(3) && Tagged(2) != Tagged(3)
  {
    assert Tagged(1)[0] == 1 && Tagged(2)[0] == 2 && Tagged(3)[0] == 3;
  }

  lemma DiamondDependencies()
    ensures SortedDependencies(Diamond(2).target) == [Tagged(1), Tagged(2)]
    ensures SortedDependencies(Message(1, [Tagged(2)])) == [Tagged(2)]
    ensures AllHashes(Dependencies(Diamond(2).target)) && AllHashes(Dependencies(Message(1, [Tagged(2)])))
  {
    var a, b := Tagged(1), Tagged(2);
    assert a[0] == 1 && b[0] == 2;
    SortPair(a, b);
    assert [a, b] + [] == [a, b] && [b] + [] == [b];
    SortOne(b);
  }

  lemma SortOne(b: Bytes)
    ensures Sort(BytesLe, [b]) == [b] && Dedup([b]) == [b]
  {
    assert [b][1..] == [];
  }

  lemma SortPair(a: Bytes, b: Bytes)
    requires a != b && BytesLe(a, b)
    ensures Sort(BytesLe, [a, b]) == [a, b] && Dedup([a, b]) == [a, b]
  {
    SortOne(b);
    assert [a, b][1..] == [b];
  }
}
