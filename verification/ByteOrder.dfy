/** Byte strings in lexicographic order, the order every canonical list is sorted by. */
module ByteOrder {
  import opened Basics
  import opened Sorting

  predicate BytesLe(a: Bytes, b: Bytes) {
    a == [] || (b != [] && (a[0] < b[0] || (a[0] == b[0] && BytesLe(a[1..], b[1..]))))
  }

  lemma {:induction false} BytesTotal(a: Bytes, b: Bytes)
    ensures BytesLe(a, b) || BytesLe(b, a)
  {
    if a != [] && b != [] { BytesTotal(a[1..], b[1..]); }
  }

  lemma {:induction false} BytesAntisymmetric(a: Bytes, b: Bytes)
    requires BytesLe(a, b) && BytesLe(b, a)
    ensures a == b
  {
    if a != [] {
      BytesAntisymmetric(a[1..], b[1..]);
      assert a == [a[0]] + a[1..] && b == [b[0]] + b[1..];
    }
  }

  lemma {:induction false} BytesTransitive(a: Bytes, b: Bytes, c: Bytes)
    requires BytesLe(a, b) && BytesLe(b, c)
    ensures BytesLe(a, c)
  {
    if a != [] && a[0] == b[0] && b[0] == c[0] { BytesTransitive(a[1..], b[1..], c[1..]); }
  }

  /** Compare by the first key, then by the second. */
  predicate PairLe(a1: Bytes, a2: Bytes, b1: Bytes, b2: Bytes) {
    if a1 == b1 then BytesLe(a2, b2) else BytesLe(a1, b1)
  }

  lemma PairTotal(a1: Bytes, a2: Bytes, b1: Bytes, b2: Bytes)
    ensures PairLe(a1, a2, b1, b2) || PairLe(b1, b2, a1, a2)
  {
    BytesTotal(a1, b1);
    BytesTotal(a2, b2);
  }

  lemma PairTransitive(a1: Bytes, a2: Bytes, b1: Bytes, b2: Bytes, c1: Bytes, c2: Bytes)
    requires PairLe(a1, a2, b1, b2) && PairLe(b1, b2, c1, c2)
    ensures PairLe(a1, a2, c1, c2)
  {
    if a1 == b1 {
      if b1 == c1 { BytesTransitive(a2, b2, c2); }
    } else if b1 != c1 {
      BytesTransitive(a1, b1, c1);
      if a1 == c1 { BytesAntisymmetric(a1, b1); }
    }
  }

  lemma PairAntisymmetric(a1: Bytes, a2: Bytes, b1: Bytes, b2: Bytes)
    requires PairLe(a1, a2, b1, b2) && PairLe(b1, b2, a1, a2)
    ensures a1 == b1 && a2 == b2
  {
    if a1 != b1 { BytesAntisymmetric(a1, b1); }
    BytesAntisymmetric(a2, b2);
  }

  lemma BytesOrdered()
    ensures TotalPreorder(BytesLe)
  {
    forall a, b ensures BytesLe(a, b) || BytesLe(b, a) { BytesTotal(a, b); }
    forall a, b, c | BytesLe(a, b) && BytesLe(b, c) ensures BytesLe(a, c) { BytesTransitive(a, b, c); }
  }
}
