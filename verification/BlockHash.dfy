/** The preimage of a block's content hash: crates/cordial-miners-core/src/crypto.rs. */
module BlockHash {
  import opened Basics
  import opened ByteOrder
  import opened Lace
  import opened Por
  import opened Sorting
  import opened Wire

  const DOMAIN: Bytes := Ascii("cordial-block-hash-v3")

  // ---- references ----

  /** What a predecessor contributes: its content hash and creator, never its signature. */
  datatype Reference = Reference(hash: Hash, creator: Bytes)

  function ReferenceOf(id: Identity): Reference {
    Reference(id.hash, id.creator)
  }

  function References(ids: seq<Identity>): (r: seq<Reference>)
    ensures |r| == |ids|
  {
    if ids == [] then [] else [ReferenceOf(ids[0])] + References(ids[1..])
  }

  predicate IdentityLe(a: Identity, b: Identity) {
    PairLe(a.hash, a.creator, b.hash, b.creator)
  }

  predicate ReferenceLe(a: Reference, b: Reference) {
    PairLe(a.hash, a.creator, b.hash, b.creator)
  }

  lemma ReferencesOrdered()
    ensures TotalPreorder(ReferenceLe) && TotalPreorder(IdentityLe)
  {
    forall a, b ensures ReferenceLe(a, b) || ReferenceLe(b, a) { PairTotal(a.hash, a.creator, b.hash, b.creator); }
    forall a, b ensures IdentityLe(a, b) || IdentityLe(b, a) { PairTotal(a.hash, a.creator, b.hash, b.creator); }
    forall a, b, c | ReferenceLe(a, b) && ReferenceLe(b, c) ensures ReferenceLe(a, c) {
      PairTransitive(a.hash, a.creator, b.hash, b.creator, c.hash, c.creator);
    }
    forall a, b, c | IdentityLe(a, b) && IdentityLe(b, c) ensures IdentityLe(a, c) {
      PairTransitive(a.hash, a.creator, b.hash, b.creator, c.hash, c.creator);
    }
  }

  lemma ReferencesNeverTie(s: seq<Reference>)
    ensures NoTies(ReferenceLe, s)
  {
    forall a, b | a in s && b in s && ReferenceLe(a, b) && ReferenceLe(b, a) ensures a == b {
      PairAntisymmetric(a.hash, a.creator, b.hash, b.creator);
    }
  }

  /** Sorting identities sorts their references. */
  lemma {:induction false} ReferencesOfInsert(x: Identity, ids: seq<Identity>)
    ensures References(Insert(IdentityLe, x, ids)) == Insert(ReferenceLe, ReferenceOf(x), References(ids))
  {
    if ids != [] {
      if IdentityLe(x, ids[0]) {
        assert ([x] + ids)[1..] == ids;
      } else {
        ReferencesOfInsert(x, ids[1..]);
        var rest := Insert(IdentityLe, x, ids[1..]);
        assert ([ids[0]] + rest)[1..] == rest;
        assert References(ids)[1..] == References(ids[1..]);
      }
    }
  }

  lemma {:induction false} ReferencesOfSort(ids: seq<Identity>)
    ensures References(Sort(IdentityLe, ids)) == Sort(ReferenceLe, References(ids))
  {
    if ids != [] {
      ReferencesOfSort(ids[1..]);
      ReferencesOfInsert(ids[0], Sort(IdentityLe, ids[1..]));
      assert References(ids)[1..] == References(ids[1..]);
    }
  }

  // ---- the buffer ----

  function PutLe(n: nat): Bytes { Le(n, 8) }
  function PutLeBytes(bytes: Bytes): Bytes { PutLe(|bytes|) + bytes }

  function ReferenceBytes(r: Reference): Bytes {
    r.hash + PutLeBytes(r.creator)
  }

  function ReferencesBytes(refs: seq<Reference>): Bytes {
    if refs == [] then [] else ReferenceBytes(refs[0]) + ReferencesBytes(refs[1..])
  }

  /** The bytes that are hashed, for predecessors met in some order. */
  function Buffer(creator: Bytes, payload: Bytes, preds: seq<Identity>): Bytes {
    DOMAIN + (PutLeBytes(creator) +
      (PutLeBytes(payload) + (PutLe(|preds|) + ReferencesBytes(References(Sort(IdentityLe, preds))))))
  }

  /** Lengths that a 64-bit machine can hold. */
  ghost predicate Fit(creator: Bytes, payload: Bytes, preds: seq<Identity>) {
    |creator| < U64 && |payload| < U64 && |preds| < U64 && forall k :: 0 <= k < |preds| ==> |preds[k].creator| < U64
  }

  ghost predicate CreatorsFit(refs: seq<Reference>) {
    forall k :: 0 <= k < |refs| ==> |refs[k].creator| < U64
  }

  // ---- one buffer, one meaning ----

  lemma PeelLe(m: nat, a: Bytes, n: nat, b: Bytes)
    requires m < U64 && n < U64 && PutLe(m) + a == PutLe(n) + b
    ensures m == n && a == b
  {
    SplitSame(PutLe(m), a, PutLe(n), b);
    Widths();
    LeInjective(m, n, 8);
  }

  lemma SplitSame(a: Bytes, x: Bytes, b: Bytes, y: Bytes)
    requires |a| == |b| && a + x == b + y
    ensures a == b && x == y
  {
    assert a == (a + x)[..|a|] && x == (a + x)[|a|..];
    assert b == (b + y)[..|b|] && y == (b + y)[|b|..];
  }

  lemma PeelLeBytes(a: Bytes, x: Bytes, b: Bytes, y: Bytes)
    requires |a| < U64 && |b| < U64 && PutLeBytes(a) + x == PutLeBytes(b) + y
    ensures a == b && x == y
  {
    assert PutLeBytes(a) + x == PutLe(|a|) + (a + x) && PutLeBytes(b) + y == PutLe(|b|) + (b + y);
    PeelLe(|a|, a + x, |b|, b + y);
    SplitSame(a, x, b, y);
  }

  lemma ReferencesHead(refs: seq<Reference>)
    requires refs != []
    ensures ReferencesBytes(refs) == refs[0].hash + (PutLeBytes(refs[0].creator) + ReferencesBytes(refs[1..]))
  {}

  lemma {:induction false} PeelReferences(a: seq<Reference>, b: seq<Reference>)
    requires |a| == |b| && CreatorsFit(a) && CreatorsFit(b) && ReferencesBytes(a) == ReferencesBytes(b)
    ensures a == b
  {
    if a != [] {
      var x, y := ReferencesBytes(a[1..]), ReferencesBytes(b[1..]);
      ReferencesHead(a);
      ReferencesHead(b);
      SplitSame(a[0].hash, PutLeBytes(a[0].creator) + x, b[0].hash, PutLeBytes(b[0].creator) + y);
      PeelLeBytes(a[0].creator, x, b[0].creator, y);
      assert CreatorsFit(a[1..]) && CreatorsFit(b[1..]);
      PeelReferences(a[1..], b[1..]);
      assert a == [a[0]] + a[1..] && b == [b[0]] + b[1..];
    }
  }

  lemma {:induction false} ReferencesAt(ids: seq<Identity>, k: nat)
    requires k < |ids|
    ensures References(ids)[k] == ReferenceOf(ids[k])
  {
    if k > 0 { ReferencesAt(ids[1..], k - 1); }
  }

  lemma SortedReferencesFit(ids: seq<Identity>)
    requires forall k :: 0 <= k < |ids| ==> |ids[k].creator| < U64
    ensures CreatorsFit(References(Sort(IdentityLe, ids)))
  {
    var sorted := Sort(IdentityLe, ids);
    SortKeeps(IdentityLe, ids);
    forall k | 0 <= k < |sorted| ensures |References(sorted)[k].creator| < U64 {
      ReferencesAt(sorted, k);
      assert sorted[k] in ids;
    }
  }

  /**
   * Two buffers are equal exactly when creator, payload and the multiset of predecessor references
   * are: neither the order in which predecessors are met nor their signatures matter, and nothing else is lost.
   */
  lemma BufferIffSameMeaning(c1: Bytes, p1: Bytes, s1: seq<Identity>, c2: Bytes, p2: Bytes, s2: seq<Identity>)
    requires Fit(c1, p1, s1) && Fit(c2, p2, s2)
    ensures Buffer(c1, p1, s1) == Buffer(c2, p2, s2) <==>
      c1 == c2 && p1 == p2 && multiset(References(s1)) == multiset(References(s2))
  {
    if multiset(References(s1)) == multiset(References(s2)) { SameReferencesSort(s1, s2); }
    if Buffer(c1, p1, s1) == Buffer(c2, p2, s2) { BufferInjective(c1, p1, s1, c2, p2, s2); }
  }

  lemma {:induction false} SameReferencesSort(s: seq<Identity>, t: seq<Identity>)
    requires multiset(References(s)) == multiset(References(t))
    ensures References(Sort(IdentityLe, s)) == References(Sort(IdentityLe, t)) && |s| == |t|
  {
    var a, b := References(s), References(t);
    ReferencesOfSort(s);
    ReferencesOfSort(t);
    ReferencesOrdered();
    SortSorted(ReferenceLe, a);
    SortSorted(ReferenceLe, b);
    SortKeeps(ReferenceLe, a);
    SortKeeps(ReferenceLe, b);
    ReferencesNeverTie(Sort(ReferenceLe, a));
    SortedUnique(ReferenceLe, Sort(ReferenceLe, a), Sort(ReferenceLe, b));
  }

  lemma BufferInjective(c1: Bytes, p1: Bytes, s1: seq<Identity>, c2: Bytes, p2: Bytes, s2: seq<Identity>)
    requires Fit(c1, p1, s1) && Fit(c2, p2, s2) && Buffer(c1, p1, s1) == Buffer(c2, p2, s2)
    ensures c1 == c2 && p1 == p2 && multiset(References(s1)) == multiset(References(s2))
  {
    var r1, r2 := References(Sort(IdentityLe, s1)), References(Sort(IdentityLe, s2));
    var b1, b2 := PutLe(|s1|) + ReferencesBytes(r1), PutLe(|s2|) + ReferencesBytes(r2);
    SplitSame(DOMAIN, PutLeBytes(c1) + (PutLeBytes(p1) + b1), DOMAIN, PutLeBytes(c2) + (PutLeBytes(p2) + b2));
    PeelLeBytes(c1, PutLeBytes(p1) + b1, c2, PutLeBytes(p2) + b2);
    PeelLeBytes(p1, b1, p2, b2);
    PeelLe(|s1|, ReferencesBytes(r1), |s2|, ReferencesBytes(r2));
    SortKeeps(IdentityLe, s1);
    SortKeeps(IdentityLe, s2);
    SortedReferencesFit(s1);
    SortedReferencesFit(s2);
    PeelReferences(r1, r2);
    ReferencesOfSort(s1);
    ReferencesOfSort(s2);
    SortKeeps(ReferenceLe, References(s1));
    SortKeeps(ReferenceLe, References(s2));
  }

  // ---- sets of predecessors ----

  /** An order in which the predecessor set may be met. */
  ghost predicate Enumerates(s: seq<Identity>, ids: set<Identity>) {
    Distinct(s) && forall x :: x in s <==> x in ids
  }

  lemma {:induction false} SameSetSameMultiset(s: seq<Identity>, t: seq<Identity>, ids: set<Identity>)
    requires Enumerates(s, ids) && Enumerates(t, ids)
    ensures multiset(s) == multiset(t)
  {
    forall x ensures multiset(s)[x] == multiset(t)[x] {
      AtMostOnce(s, x);
      AtMostOnce(t, x);
      assert x in multiset(s) <==> x in s;
      assert x in multiset(t) <==> x in t;
    }
  }

  /** The buffer of a predecessor set does not depend on the order it is met in. */
  lemma OrderDoesNotMatter(creator: Bytes, payload: Bytes, s: seq<Identity>, t: seq<Identity>, ids: set<Identity>)
    requires Enumerates(s, ids) && Enumerates(t, ids)
    ensures Buffer(creator, payload, s) == Buffer(creator, payload, t)
  {
    SameSetSameMultiset(s, t, ids);
    SameIdentitiesSameReferences(s, t);
    SameReferencesSort(s, t);
  }

  lemma {:induction false} ReferencesSplit(s: seq<Identity>, t: seq<Identity>)
    ensures References(s + t) == References(s) + References(t)
  {
    if s == [] {
      assert s + t == t;
    } else {
      ReferencesSplit(s[1..], t);
      ReferencesCons(s[0], s[1..] + t);
      ReferencesCons(s[0], s[1..]);
      assert s + t == [s[0]] + (s[1..] + t) && s == [s[0]] + s[1..];
      Reassociate([ReferenceOf(s[0])], References(s[1..]), References(t));
    }
  }

  lemma ReferencesCons(x: Identity, s: seq<Identity>)
    ensures References([x] + s) == [ReferenceOf(x)] + References(s)
  {
    assert ([x] + s)[1..] == s;
  }

  lemma Reassociate<T>(a: seq<T>, b: seq<T>, c: seq<T>)
    ensures (a + b) + c == a + (b + c)
  {}

  /** Taking one identity out takes exactly its reference out. */
  lemma WithoutOne(front: seq<Identity>, x: Identity, back: seq<Identity>)
    ensures multiset(front + ([x] + back)) == multiset(front + back) + multiset{x}
    ensures multiset(References(front + ([x] + back))) == multiset(References(front + back)) + multiset{ReferenceOf(x)}
  {
    ReferencesSplit(front, [x] + back);
    ReferencesSplit(front, back);
    assert ([x] + back)[1..] == back;
  }

  lemma {:induction false} RemoveAt(t: seq<Identity>, k: int) returns (rest: seq<Identity>)
    requires 0 <= k < |t|
    ensures multiset(t) == multiset(rest) + multiset{t[k]}
    ensures multiset(References(t)) == multiset(References(rest)) + multiset{ReferenceOf(t[k])}
    ensures |rest| == |t| - 1
  {
    var front, back := t[..k], t[k + 1..];
    WithoutOne(front, t[k], back);
    assert t == front + ([t[k]] + back);
    rest := front + back;
  }

  lemma CancelOne<T>(a: multiset<T>, b: multiset<T>, x: T)
    requires a + multiset{x} == b + multiset{x}
    ensures a == b
  {
    assert a == (a + multiset{x}) - multiset{x};
    assert b == (b + multiset{x}) - multiset{x};
  }

  lemma {:induction false} SameIdentitiesSameReferences(s: seq<Identity>, t: seq<Identity>)
    requires multiset(s) == multiset(t)
    ensures multiset(References(s)) == multiset(References(t))
    decreases |s|
  {
    SameElements(s, t);
    if s != [] {
      var x := s[0];
      assert x in t;
      var k :| 0 <= k < |t| && t[k] == x;
      var less := RemoveAt(t, k);
      var tail := RemoveAt(s, 0);
      CancelOne(multiset(tail), multiset(less), x);
      SameIdentitiesSameReferences(tail, less);
    }
  }

  // ---- building it ----

  /** Append the references of the sorted predecessors. */
  method AppendReferences(start: Bytes, sorted: seq<Identity>) returns (buffer: Bytes)
    ensures buffer == start + ReferencesBytes(References(sorted))
  {
    buffer := start;
    assert sorted[0..] == sorted;
    for i := 0 to |sorted|
      invariant buffer + ReferencesBytes(References(sorted[i..])) == start + ReferencesBytes(References(sorted))
    {
      var hash, creator := sorted[i].hash, sorted[i].creator;
      assert sorted[i..][1..] == sorted[i + 1..];
      ghost var rest := ReferencesBytes(References(sorted[i + 1..]));
      assert buffer + (hash + (PutLe(|creator|) + creator) + rest) ==
        ((buffer + hash) + PutLe(|creator|) + creator) + rest;
      buffer := buffer + hash + PutLe(|creator|) + creator;
    }
    assert sorted[|sorted|..] == [];
  }

  /** Build the buffer field by field and hash it. */
  method BlockHashExt(creator: Bytes, content: Content, hasher: Bytes -> Hash)
    returns (h: Hash, ghost order: seq<Identity>)
    ensures Enumerates(order, content.preds)
    ensures forall s :: Enumerates(s, content.preds) ==> h == hasher(Buffer(creator, content.payload, s))
  {
    var preds := Collect(content.preds);
    order := preds;
    var sorted := Sort(IdentityLe, preds);
    SortKeeps(IdentityLe, preds);
    var fields := FieldsBefore(creator, content.payload, |sorted|);
    var buffer := AppendReferences(fields, sorted);
    FieldsJoin(creator, content.payload, preds, ReferencesBytes(References(sorted)));
    forall s | Enumerates(s, content.preds) ensures Buffer(creator, content.payload, s) == buffer {
      OrderDoesNotMatter(creator, content.payload, s, preds, content.preds);
    }
    h := hasher(buffer);
  }

  function FieldsBefore(creator: Bytes, payload: Bytes, count: nat): Bytes {
    DOMAIN + PutLe(|creator|) + creator + PutLe(|payload|) + payload + PutLe(count)
  }

  lemma FieldsJoin(creator: Bytes, payload: Bytes, preds: seq<Identity>, refs: Bytes)
    ensures FieldsBefore(creator, payload, |preds|) + refs ==
      DOMAIN + (PutLeBytes(creator) + (PutLeBytes(payload) + (PutLe(|preds|) + refs)))
  {
    assert PutLeBytes(payload) + (PutLe(|preds|) + refs) == ((PutLe(|payload|) + payload) + PutLe(|preds|)) + refs;
  }

  method Collect(ids: set<Identity>) returns (s: seq<Identity>)
    ensures Enumerates(s, ids)
  {
    s := [];
    var rest := ids;
    while rest != {}
      invariant rest <= ids && Enumerates(s, ids - rest)
      decreases |rest|
    {
      var id :| id in rest;
      EnumeratesSnoc(s, ids - rest, id);
      assert ids - (rest - {id}) == (ids - rest) + {id};
      s := s + [id];
      rest := rest - {id};
    }
    assert ids - rest == ids;
  }

  lemma EnumeratesSnoc(s: seq<Identity>, ids: set<Identity>, id: Identity)
    requires Enumerates(s, ids) && id !in ids
    ensures Enumerates(s + [id], ids + {id})
  {
    assert id !in s;
    forall i, j | 0 <= i < j < |s| + 1 ensures (s + [id])[i] != (s + [id])[j] {
      assert (s + [id])[i] == s[i] && s[i] in s;
    }
  }
}
