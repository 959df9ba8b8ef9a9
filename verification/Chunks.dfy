/** Splitting a sequence into maximal runs of neighbours with the same key. */
module Chunking {
  import opened Basics

  predicate NoneEmpty<T>(chunks: seq<seq<T>>) {
    forall g :: 0 <= g < |chunks| ==> chunks[g] != []
  }

  function Chunks<T>(key: T -> Bytes, s: seq<T>): (r: seq<seq<T>>)
    ensures NoneEmpty(r)
    ensures s != [] ==> r != [] && key(r[0][0]) == key(s[0])
  {
    if s == [] then []
    else
      var rest := Chunks(key, s[1..]);
      if rest != [] && key(rest[0][0]) == key(s[0]) then [[s[0]] + rest[0]] + rest[1..]
      else [[s[0]]] + rest
  }

  ghost function Concat<T>(chunks: seq<seq<T>>): seq<T> {
    if chunks == [] then [] else chunks[0] + Concat(chunks[1..])
  }

  ghost predicate Uniform<T(!new)>(key: T -> Bytes, chunk: seq<T>) {
    chunk != [] && forall k :: 0 <= k < |chunk| ==> key(chunk[k]) == key(chunk[0])
  }

  /** The runs make up the sequence, each is uniform, and neighbouring runs differ. */
  lemma {:induction false} ChunksAreRuns<T(!new)>(key: T -> Bytes, s: seq<T>)
    ensures Concat(Chunks(key, s)) == s
    ensures var r := Chunks(key, s);
      && (forall g :: 0 <= g < |r| ==> Uniform(key, r[g]))
      && (forall g :: 0 < g < |r| ==> key(r[g - 1][0]) != key(r[g][0]))
  {
    if s != [] {
      ChunksAreRuns(key, s[1..]);
      var rest, r := Chunks(key, s[1..]), Chunks(key, s);
      assert s == [s[0]] + s[1..];
      if rest != [] && key(rest[0][0]) == key(s[0]) {
        assert Concat(rest) == rest[0] + Concat(rest[1..]);
        assert r[1..] == rest[1..];
        assert Uniform(key, rest[0]);
        assert ([s[0]] + rest[0]) + Concat(rest[1..]) == [s[0]] + (rest[0] + Concat(rest[1..]));
      } else {
        assert r[1..] == rest;
      }
    }
  }

  /** Members of a run are members of the sequence. */
  lemma {:induction false} ConcatHas<T>(chunks: seq<seq<T>>, g: int, x: T)
    requires 0 <= g < |chunks| && x in chunks[g]
    ensures x in Concat(chunks)
  {
    if g > 0 { ConcatHas(chunks[1..], g - 1, x); }
  }
}
