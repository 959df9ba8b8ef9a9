/** Byte strings, the results of operations that can fail, and finite sets. */
module Basics {
  datatype Option<+T> = None | Some(value: T)

  datatype Result<+T, +E> = Ok(value: T) | Err(error: E) {
    predicate IsFailure() { Err? }
    function PropagateFailure<U>(): Result<U, E>
      requires Err?
    {
      Err(error)
    }
    function Extract(): T
      requires Ok?
    {
      value
    }
  }

  type byte = x: int | 0 <= x < 256
  type Bytes = seq<byte>
  type Hash = h: Bytes | |h| == 32 witness seq(32, _ => 0)

  function AsSet<T(==)>(s: seq<T>): set<T> {
    set x | x in s
  }

  lemma AsSetSnoc<T>(s: seq<T>, i: nat)
    requires i < |s|
    ensures AsSet(s[..i + 1]) == AsSet(s[..i]) + {s[i]}
  {
    assert s[..i + 1] == s[..i] + [s[i]];
  }

  lemma SubsetSize<T>(s: set<T>, t: set<T>)
    requires s <= t
    ensures |s| <= |t|
  {
    assert t == s + (t - s);
  }
}
