/** Unsigned 64-bit words as numbers, with the bit operations defined digit by digit. */
module Words {

  function Pow2(k: nat): (p: nat)
    ensures p > 0
  {
    if k == 0 then 1 else 2 * Pow2(k - 1)
  }

  type Word = w: nat | w < 0x1_0000_0000_0000_0000

  /** Bit `k` of `w`: the lowest digit after shifting right `k` times. */
  predicate Bit(w: nat, k: nat) {
    if k == 0 then w % 2 == 1 else Bit(w / 2, k - 1)
  }

  /** Bitwise or. */
  function Or(v: nat, w: nat): nat {
    if v == 0 then w else
    if w == 0 then v else
    (if v % 2 == 1 || w % 2 == 1 then 1 else 0) + 2 * Or(v / 2, w / 2)
  }

  /** Number of set bits. */
  function CountOnes(w: nat): nat {
    if w == 0 then 0 else w % 2 + CountOnes(w / 2)
  }

  lemma {:induction false} BitOfZero(k: nat)
    ensures !Bit(0, k)
  {
    if k > 0 { BitOfZero(k - 1); }
  }

  lemma {:induction false} BitOfOr(v: nat, w: nat, k: nat)
    ensures Bit(Or(v, w), k) <==> Bit(v, k) || Bit(w, k)
  {
    if v == 0 || w == 0 {
      BitOfZero(k);
    } else if k > 0 {
      BitOfOr(v / 2, w / 2, k - 1);
    }
  }

  lemma {:induction false} BitOfPow2(j: nat, k: nat)
    ensures Bit(Pow2(j), k) <==> j == k
  {
    if j == 0 {
      if k > 0 { BitOfZero(k - 1); }
    } else if k > 0 {
      BitOfPow2(j - 1, k - 1);
    }
  }

  lemma {:induction false} OrBounded(v: nat, w: nat, m: nat)
    requires v < Pow2(m) && w < Pow2(m)
    ensures Or(v, w) < Pow2(m)
  {
    if v > 0 && w > 0 { OrBounded(v / 2, w / 2, m - 1); }
  }

  lemma Pow2Of64()
    ensures Pow2(64) == 0x1_0000_0000_0000_0000
  {
    assert Pow2(4) == 16;
    Pow2Sum(4, 4);
    Pow2Sum(8, 8);
    Pow2Sum(16, 16);
    Pow2Sum(32, 32);
  }

  lemma {:induction false} Pow2Sum(a: nat, b: nat)
    ensures Pow2(a + b) == Pow2(a) * Pow2(b)
  {
    if a > 0 { Pow2Sum(a - 1, b); }
  }

  lemma {:induction false} Pow2Monotone(a: nat, b: nat)
    requires a <= b
    ensures Pow2(a) <= Pow2(b)
  {
    if a < b { Pow2Monotone(a, b - 1); }
  }

  function OrWord(v: Word, w: Word): (r: Word)
    ensures forall k: nat :: Bit(r, k) <==> Bit(v, k) || Bit(w, k)
  {
    Pow2Of64();
    OrBounded(v, w, 64);
    assert forall k: nat :: Bit(Or(v, w), k) <==> Bit(v, k) || Bit(w, k) by {
      forall k: nat ensures Bit(Or(v, w), k) <==> Bit(v, k) || Bit(w, k) { BitOfOr(v, w, k); }
    }
    Or(v, w)
  }

  /** The word `1 << j`. */
  function SingleBit(j: nat): (r: Word)
    requires j < 64
    ensures forall k: nat :: Bit(r, k) <==> k == j
  {
    Pow2Of64();
    Pow2Monotone(j, 63);
    assert forall k: nat :: Bit(Pow2(j), k) <==> k == j by {
      forall k: nat ensures Bit(Pow2(j), k) <==> k == j { BitOfPow2(j, k); }
    }
    Pow2(j)
  }

  /** The positions of the set bits among the lowest `m`. */
  function Ones(w: nat, m: nat): set<nat> {
    set k: nat | k < m && Bit(w, k)
  }

  lemma CountOnesIsCardinality(w: Word)
    ensures CountOnes(w) == |Ones(w, 64)|
  {
    Pow2Of64();
    CountDigits(w, 64);
  }

  lemma {:induction false} CountDigits(w: nat, m: nat)
    requires w < Pow2(m)
    ensures CountOnes(w) == |Ones(w, m)|
  {
    var s := Ones(w, m);
    if m == 0 {
      assert s == {};
    } else {
      CountDigits(w / 2, m - 1);
      var t := Ones(w / 2, m - 1);
      var u := set k: int | k in t :: k + 1;
      ShiftKeepsSize(t, u, 1);
      forall k | k in s && k > 0 ensures k in u { assert k - 1 in t; }
      if w % 2 == 1 {
        assert s == u + {0} && 0 !in u;
      } else {
        assert s == u;
      }
    }
  }

  lemma Member<T>(s: set<T>) returns (x: T)
    requires s != {}
    ensures x in s
  {
    x :| x in s;
  }

  lemma {:induction false} ShiftKeepsSize(s: set<int>, t: set<int>, d: int)
    requires t == set k | k in s :: k + d
    ensures |s| == |t|
  {
    if s != {} {
      var k := Member(s);
      var s', t' := s - {k}, t - {k + d};
      assert t' == set j | j in s' :: j + d by {
        forall j | j in t' ensures j in (set j | j in s' :: j + d) { assert j - d in s'; }
      }
      ShiftKeepsSize(s', t', d);
    }
  }
}
