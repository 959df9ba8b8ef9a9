/**
 * Whole runs of the native backfill walk: crates/cordial-f1r3node-adapter/src/native_live_runner.rs.
 */
module BackfillRuns {
  import opened BackfillWalk
  import opened Basics
  import opened Native

  /** The walk and the indexed hashes between two steps. */
  datatype State = State(walk: Walk, indexed: set<Bytes>)

  function Top(w: Walk): Work
    requires w.stack != []
  {
    w.stack[|w.stack| - 1]
  }

  /** The walk once the block on top has been taken in. */
  function Finished(w: Walk, block: NativeMessage): Walk
    requires w.stack != []
  {
    w.(stack := w.stack[..|w.stack| - 1], ancestry := w.ancestry - {block.blockHash})
  }

  /** Visit the block on top of the stack, or take in the one that waits there. */
  predicate Steps(q: Request, s: State, t: State) {
    s.walk.stack != [] &&
    match Top(s.walk)
    case Enter(_) => EnterTop(q, s.indexed, s.walk) == Ok(t.walk) && t.indexed == s.indexed
    case Apply(block) => t == State(Finished(s.walk, block), s.indexed + {block.blockHash})
  }

  /** The next step is refused: by the walk itself, or by the ingress for a reason other than a missing parent. */
  predicate Refuses(q: Request, s: State, e: BackfillError) {
    s.walk.stack != [] &&
    match Top(s.walk)
    case Enter(_) => EnterTop(q, s.indexed, s.walk) == Err(e)
    case Apply(_) => e.IngressFailed? && !e.error.UnresolvedParent?
  }

  function Last(run: seq<State>): State
    requires run != []
  {
    run[|run| - 1]
  }

  /** Every state so far, from the request over an index that holds `was`. */
  predicate IsRun(q: Request, was: set<Bytes>, run: seq<State>) {
    run != [] &&
    if |run| == 1 then run[0] == State(Walk([Enter(q.target)], {}, 0), was)
    else IsRun(q, was, run[..|run| - 1]) && Steps(q, run[|run| - 2], Last(run))
  }

  /** How many blocks were taken in. */
  function Applications(run: seq<State>): nat {
    if |run| <= 1 then 0
    else
      var before := run[|run| - 2].walk;
      Applications(run[..|run| - 1]) + if before.stack != [] && Top(before).Apply? then 1 else 0
  }

  /** A step keeps the walk sound and has less left to do; a block is taken in only when it is timely. */
  lemma {:induction false} StepKeeps(q: Request, was: set<Bytes>, s: State, t: State, log: set<Fetch>)
    returns (log': set<Fetch>)
    requires WalkOk(q, was, s.walk, s.indexed, log) && Steps(q, s, t)
    ensures WalkOk(q, was, t.walk, t.indexed, log') && log <= log'
    ensures Effort(t.walk, q.max) < Effort(s.walk, q.max)
    ensures Top(s.walk).Apply? ==> Timely(q, s.indexed, Top(s.walk).block)
  {
    match Top(s.walk)
    case Enter(_) => log' := EnterKeeps(q, was, s.walk, s.indexed, log);
    case Apply(block) =>
      var stack := s.walk.stack[..|s.walk.stack| - 1];
      assert s.walk.stack == stack + [Apply(block)];
      ApplyKeeps(q, was, s.walk, stack, block, s.indexed, log);
      log' := log;
  }

  /**
   * Every state of a run is sound: its fetches, within the budget, each followed another missing dependency
   * edge. A run takes at most three steps per block of the budget and two for the target.
   */
  lemma {:induction false} RunIsSound(q: Request, was: set<Bytes>, run: seq<State>) returns (log: set<Fetch>)
    requires IsRun(q, was, run)
    ensures WalkOk(q, was, Last(run).walk, Last(run).indexed, log)
    ensures |log| == Last(run).walk.fetched <= q.max && AllMissing(q, was, log)
    ensures |run| + Effort(Last(run).walk, q.max) <= 3 * q.max + 3
  {
    if |run| == 1 {
      StartOk(q, was);
      PushLinked([], Enter(q.target));
      assert [] + run[0].walk.stack == run[0].walk.stack;
      log := {};
    } else {
      var before := RunIsSound(q, was, run[..|run| - 1]);
      log := StepKeeps(q, was, run[|run| - 2], Last(run), before);
    }
  }

  lemma {:induction false} PrefixIsRun(q: Request, was: set<Bytes>, run: seq<State>, n: int)
    requires IsRun(q, was, run) && 0 < n <= |run|
    ensures IsRun(q, was, run[..n])
    decreases |run|
  {
    if n == |run| {
      assert run[..n] == run;
    } else {
      PrefixIsRun(q, was, run[..|run| - 1], n);
      assert run[..|run| - 1][..n] == run[..n];
    }
  }

  lemma {:induction false} RunStarts(q: Request, was: set<Bytes>, run: seq<State>)
    requires IsRun(q, was, run)
    ensures run[0].indexed == was
  {
    if |run| > 1 { RunStarts(q, was, run[..|run| - 1]); }
  }

  /** Every block taken in was new, sourced, and had all its dependencies indexed at that moment. */
  lemma {:induction false} AppliedInOrder(q: Request, was: set<Bytes>, run: seq<State>, k: int)
    requires IsRun(q, was, run) && 0 <= k < |run| - 1
    ensures run[k].walk.stack != [] && Steps(q, run[k], run[k + 1])
    ensures Top(run[k].walk).Apply? ==> Timely(q, run[k].indexed, Top(run[k].walk).block)
  {
    PrefixIsRun(q, was, run, k + 2);
    PrefixIsRun(q, was, run, k + 1);
    assert run[..k + 2][..k + 1] == run[..k + 1];
    var log := RunIsSound(q, was, run[..k + 1]);
    var log' := StepKeeps(q, was, run[k], run[k + 1], log);
  }

  /** The blocks taken in are exactly the hashes that were added to the index. */
  lemma {:induction false} AppliedCount(q: Request, was: set<Bytes>, run: seq<State>)
    requires IsRun(q, was, run)
    ensures was <= Last(run).indexed && |Last(run).indexed| == |was| + Applications(run)
  {
    if |run| > 1 {
      AppliedCount(q, was, run[..|run| - 1]);
      AppliedInOrder(q, was, run, |run| - 2);
    }
  }

  /** The request and the index decide the whole run: of two runs one continues the other. */
  lemma {:induction false} RunsAgree(q: Request, was: set<Bytes>, a: seq<State>, b: seq<State>)
    requires IsRun(q, was, a) && IsRun(q, was, b) && |a| <= |b|
    ensures a == b[..|a|]
    decreases |b|
  {
    if |a| < |b| {
      RunsAgree(q, was, a, b[..|b| - 1]);
      assert b[..|b| - 1][..|a|] == b[..|a|];
    } else if |a| > 1 {
      RunsAgree(q, was, a[..|a| - 1], b[..|b| - 1]);
      assert a == a[..|a| - 1] + [Last(a)] && b == b[..|b| - 1] + [Last(b)];
      assert a[|a| - 2] == a[..|a| - 1][|a| - 2] && b[|b| - 2] == b[..|b| - 1][|b| - 2];
    }
  }

  lemma {:induction false} RunGrows(q: Request, was: set<Bytes>, run: seq<State>, t: State)
    requires IsRun(q, was, run) && Steps(q, Last(run), t)
    ensures IsRun(q, was, run + [t]) && Last(run + [t]) == t
    ensures Applications(run + [t]) == Applications(run) + if Top(Last(run).walk).Apply? then 1 else 0
  {
    assert (run + [t])[..|run|] == run;
  }

  /** Between two steps: a block about to be taken in is timely, and some effort is left. */
  lemma {:induction false} ReadyToStep(q: Request, was: set<Bytes>, run: seq<State>)
    requires IsRun(q, was, run) && Last(run).walk.stack != []
    ensures Top(Last(run).walk).Apply? ==> Timely(q, Last(run).indexed, Top(Last(run).walk).block)
    ensures |run| < 3 * q.max + 3
  {
    var s := Last(run);
    var log := RunIsSound(q, was, run);
    match Top(s.walk)
    case Enter(_) =>
    case Apply(block) =>
      var log' := StepKeeps(q, was, s, State(Finished(s.walk, block), s.indexed + {block.blockHash}), log);
  }

  /** A finished run has indexed the target and every block it fetched something for. */
  lemma {:induction false} FinishedRun(q: Request, was: set<Bytes>, run: seq<State>) returns (log: set<Fetch>)
    requires IsRun(q, was, run) && Last(run).walk.stack == []
    ensures q.target.blockHash in Last(run).indexed
    ensures |log| == Last(run).walk.fetched && forall f :: f in log ==> f.parent in Last(run).indexed
  {
    log := RunIsSound(q, was, run);
    assert Served([], Last(run).indexed, -1, q.target.blockHash);
    assert Hashes(Waiting([])) == {};
  }

  /** A refused run is refused for a reason. */
  lemma {:induction false} RefusedRun(q: Request, was: set<Bytes>, run: seq<State>, e: BackfillError)
    requires IsRun(q, was, run) && Refuses(q, Last(run), e)
    ensures Explains(q, was, Last(run).indexed, e)
  {
    var log := RunIsSound(q, was, run);
    var s := Last(run);
    if Top(s.walk).Enter? {
      var log' := EnterKeeps(q, was, s.walk, s.indexed, log);
    }
  }
}
