/** Checkpoints of the finalized prefix: crates/cordial-f1r3node-adapter/src/por/finality.rs. */
module PrefixCheckpoints {
  import opened Basics
  import opened Lace
  import opened OrderedOutput
  import opened Por
  import opened ReputationBlocks
  import opened Wire

  /** What a rating signs, and the block it ends with. */
  datatype Checkpoint = Checkpoint(source: Source, terminal: Identity)

  datatype FinalityError = UnanchoredFinalizedPrefix | InvalidCheckpointRound

  const PREFIX_DOMAIN: Bytes := Ascii("cordial-por:finalized-prefix:v1")

  // ---- the rolling hash ----

  function LinkBytes(previous: Hash, index: nat, block: Identity): Bytes {
    PREFIX_DOMAIN +
      (previous + (PutU64(index) + (block.hash + (PutBytes(block.creator) + PutBytes(block.signature)))))
  }

  function PrefixHash(hasher: Bytes -> Hash, blocks: seq<Identity>): Hash {
    if blocks == [] then hasher(PREFIX_DOMAIN)
    else
      var front, last := blocks[..|blocks| - 1], blocks[|blocks| - 1];
      hasher(LinkBytes(PrefixHash(hasher, front), |front|, last))
  }

  method FinalizedPrefixHash(hasher: Bytes -> Hash, blocks: seq<Identity>) returns (h: Hash)
    ensures h == PrefixHash(hasher, blocks)
  {
    h := hasher(PREFIX_DOMAIN);
    for i := 0 to |blocks|
      invariant h == PrefixHash(hasher, blocks[..i])
    {
      assert blocks[..i + 1][..i] == blocks[..i];
      var bytes := PREFIX_DOMAIN + h + PutU64(i) + blocks[i].hash + PutU64(|blocks[i].creator|) + blocks[i].creator +
        PutU64(|blocks[i].signature|) + blocks[i].signature;
      Layout(PREFIX_DOMAIN, h, PutU64(i), blocks[i].hash, PutU64(|blocks[i].creator|), blocks[i].creator,
             PutU64(|blocks[i].signature|), blocks[i].signature);
      h := hasher(bytes);
    }
    assert blocks[..|blocks|] == blocks;
  }

  lemma Layout(a: Bytes, b: Bytes, c: Bytes, d: Bytes, e: Bytes, f: Bytes, g: Bytes, h: Bytes)
    ensures a + b + c + d + e + f + g + h == a + (b + (c + (d + ((e + f) + (g + h)))))
  {}

  ghost predicate Fit(block: Identity) {
    |block.creator| < U64 && |block.signature| < U64
  }

  lemma {:induction false} LinkInjective(g: Hash, a: Identity, h: Hash, b: Identity, index: u64)
    requires Fit(a) && Fit(b) && LinkBytes(g, index, a) == LinkBytes(h, index, b)
    ensures g == h && a == b
  {
    var xa, xb := PutBytes(a.creator) + PutBytes(a.signature), PutBytes(b.creator) + PutBytes(b.signature);
    PeelFixed(PREFIX_DOMAIN, g + (PutU64(index) + (a.hash + xa)), PREFIX_DOMAIN, h + (PutU64(index) + (b.hash + xb)));
    PeelFixed(g, PutU64(index) + (a.hash + xa), h, PutU64(index) + (b.hash + xb));
    PeelFixed(PutU64(index), a.hash + xa, PutU64(index), b.hash + xb);
    PeelFixed(a.hash, xa, b.hash, xb);
    PeelBytes(a.creator, PutBytes(a.signature), b.creator, PutBytes(b.signature));
    PutBytesInjective(a.signature, b.signature);
  }

  lemma PutBytesInjective(a: Bytes, b: Bytes)
    requires |a| < U64 && |b| < U64 && PutBytes(a) == PutBytes(b)
    ensures a == b
  {
    assert PutBytes(a) + [] == PutBytes(b) + [];
    PeelBytes(a, [], b, []);
  }

  /** What is hashed for the block at `k`. */
  function Link(hasher: Bytes -> Hash, blocks: seq<Identity>, k: nat): Bytes
    requires k < |blocks|
  {
    LinkBytes(PrefixHash(hasher, blocks[..k]), k, blocks[k])
  }

  /** The hash function gives different links of the two prefixes, at one place, the same hash. */
  ghost predicate Collides(hasher: Bytes -> Hash, s: seq<Identity>, t: seq<Identity>) {
    exists k :: 0 <= k < |s| && k < |t| && Link(hasher, s, k) != Link(hasher, t, k) &&
      hasher(Link(hasher, s, k)) == hasher(Link(hasher, t, k))
  }

  /** Prefixes of one length with one hash are the same prefix, or show a collision. */
  lemma {:induction false} PrefixHashBinds(hasher: Bytes -> Hash, s: seq<Identity>, t: seq<Identity>)
    requires |s| == |t| < U64 && PrefixHash(hasher, s) == PrefixHash(hasher, t)
    requires forall b :: b in s || b in t ==> Fit(b)
    ensures s == t || Collides(hasher, s, t)
  {
    if s != [] {
      var n := |s| - 1;
      assert hasher(Link(hasher, s, n)) == hasher(Link(hasher, t, n));
      if Link(hasher, s, n) == Link(hasher, t, n) {
        LinkInjective(PrefixHash(hasher, s[..n]), s[n], PrefixHash(hasher, t[..n]), t[n], n);
        PrefixHashBinds(hasher, s[..n], t[..n]);
        assert s == s[..n] + [s[n]] && t == t[..n] + [t[n]];
        if s[..n] != t[..n] { CollisionRemains(hasher, s, t, n); }
      }
    }
  }

  lemma CollisionRemains(hasher: Bytes -> Hash, s: seq<Identity>, t: seq<Identity>, n: nat)
    requires n <= |s| && n <= |t| && Collides(hasher, s[..n], t[..n])
    ensures Collides(hasher, s, t)
  {
    var k :| 0 <= k < n && Link(hasher, s[..n], k) != Link(hasher, t[..n], k) &&
      hasher(Link(hasher, s[..n], k)) == hasher(Link(hasher, t[..n], k));
    assert s[..n][..k] == s[..k] && t[..n][..k] == t[..k];
    assert Link(hasher, s, k) == Link(hasher, s[..n], k) && Link(hasher, t, k) == Link(hasher, t[..n], k);
  }

  // ---- checkpoints ----

  /** The checkpoint of a round ends with the round's sixteenth block of the published prefix. */
  function CheckpointOf(hasher: Bytes -> Hash, output: OrderedFinalizedOutput, round: u64)
    : Result<Option<Checkpoint>, FinalityError>
  {
    var end := round * BLOCKS_PER_CHECKPOINT;
    if round == 0 || end >= U64 then Err(InvalidCheckpointRound)
    else if output.anchor == None && output.blocks != [] then Err(UnanchoredFinalizedPrefix)
    else if |output.blocks| < end then Ok(None)
    else
      Ok(Some(Checkpoint(Source(round, end, PrefixHash(hasher, output.blocks[..end])), output.blocks[end - 1])))
  }

  method FinalizedPrefixCheckpoint(hasher: Bytes -> Hash, output: OrderedFinalizedOutput, round: u64)
    returns (r: Result<Option<Checkpoint>, FinalityError>)
    ensures r == CheckpointOf(hasher, output, round)
  {
    if round == 0 { return Err(InvalidCheckpointRound); }
    var end := round * BLOCKS_PER_CHECKPOINT;
    if end >= U64 { return Err(InvalidCheckpointRound); }
    if output.anchor == None {
      return if output.blocks == [] then Ok(None) else Err(UnanchoredFinalizedPrefix);
    }
    if end - 1 >= |output.blocks| { return Ok(None); }
    var hash := FinalizedPrefixHash(hasher, output.blocks[..end]);
    r := Ok(Some(Checkpoint(Source(round, end, hash), output.blocks[end - 1])));
  }

  /** A checkpoint is well formed, and no later publication that extends the prefix changes it. */
  lemma CheckpointIsStable(hasher: Bytes -> Hash, output: OrderedFinalizedOutput, later: OrderedFinalizedOutput,
                           round: u64, c: Checkpoint)
    requires CheckpointOf(hasher, output, round) == Ok(Some(c))
    requires output.blocks <= later.blocks && later.anchor.Some?
    ensures SourceOk(c.source) && CheckpointOf(hasher, later, round) == Ok(Some(c))
  {
    var end := round * BLOCKS_PER_CHECKPOINT;
    assert later.blocks[..end] == output.blocks[..end];
  }

  /** Two publications with one checkpoint share their prefix up to it, unless the hash function collides. */
  lemma {:induction false} CheckpointBindsPrefix(hasher: Bytes -> Hash, a: OrderedFinalizedOutput,
                                                 b: OrderedFinalizedOutput, round: u64, c: Checkpoint)
    requires CheckpointOf(hasher, a, round) == Ok(Some(c)) && CheckpointOf(hasher, b, round) == Ok(Some(c))
    requires forall x :: x in a.blocks || x in b.blocks ==> Fit(x)
    ensures c.source.prefixLength <= |a.blocks| && c.source.prefixLength <= |b.blocks|
    ensures var x, y := a.blocks[..c.source.prefixLength], b.blocks[..c.source.prefixLength];
      x == y || Collides(hasher, x, y)
  {
    var end := c.source.prefixLength;
    PrefixHashBinds(hasher, a.blocks[..end], b.blocks[..end]);
  }
}
