/**
 * The finalized ordered output and its append-only container:
 * crates/cordial-f1r3node-adapter/src/ordered_output.rs and shared_ordered_output.rs.
 */
module OrderedOutput {
  import opened Basics
  import opened Lace

  datatype OrderedFinalizedOutput = OrderedFinalizedOutput(
    blocks: seq<Identity>,
    anchor: Option<Identity>,
    wavelength: nat,
    bondCount: nat,
    mirrored: nat,
    computedAt: nat)

  /** Identities without their signatures, in order. */
  function Strip(ids: seq<Identity>): (r: seq<Identity>)
    ensures |r| == |ids| && forall i :: 0 <= i < |ids| ==> r[i] == Unsigned(ids[i])
  {
    seq(|ids|, i requires 0 <= i < |ids| => Unsigned(ids[i]))
  }

  function StripAnchor(anchor: Option<Identity>): Option<Identity> {
    match anchor
    case Some(id) => Some(Unsigned(id))
    case None => None
  }

  function NewOutput(blocks: seq<Identity>, anchor: Option<Identity>, wavelength: nat, bondCount: nat, mirrored: nat,
                     now: nat): OrderedFinalizedOutput
  {
    OrderedFinalizedOutput(Strip(blocks), StripAnchor(anchor), wavelength, bondCount, mirrored, now)
  }

  predicate PreservesPrefix(output: OrderedFinalizedOutput, previous: OrderedFinalizedOutput) {
    previous.blocks <= output.blocks
  }

  /** Signature variants of the same blocks give the same output. */
  lemma SignaturesDoNotMatter(a: seq<Identity>, b: seq<Identity>, x: Option<Identity>, y: Option<Identity>, w: nat,
                              n: nat, m: nat, t: nat)
    requires |a| == |b| && forall i :: 0 <= i < |a| ==> SameConsensus(a[i], b[i])
    requires x.Some? == y.Some? && (x.Some? ==> SameConsensus(x.value, y.value))
    ensures NewOutput(a, x, w, n, m, t) == NewOutput(b, y, w, n, m, t)
  {
    forall i | 0 <= i < |a| ensures Strip(a)[i] == Strip(b)[i] {}
  }

  class SharedOrderedOutput {
    var latest: Option<OrderedFinalizedOutput>

    constructor ()
      ensures latest == None
    {
      latest := None;
    }

    /** Publish an output that extends the published one; refuse any other and change nothing. */
    method Update(output: OrderedFinalizedOutput) returns (ok: bool)
      modifies this
      ensures ok <==> old(latest.None? || latest.value.blocks <= output.blocks)
      ensures latest == if ok then Some(output) else old(latest)
    {
      if latest.Some? && !PreservesPrefix(output, latest.value) {
        return false;
      }
      latest := Some(output);
      ok := true;
    }
  }
}
