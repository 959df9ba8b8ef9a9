/** Fixed-width integers and length-prefixed fields, and how they are read back. */
module Wire {
  import opened Basics
  import opened Por

  datatype WireError = Malformed | TooLarge

  // ---- integers ----

  function Pow256(width: nat): nat {
    if width == 0 then 1 else 256 * Pow256(width - 1)
  }

  lemma Widths()
    ensures Pow256(2) == 0x1_0000 && Pow256(8) == U64
  {
    assert Pow256(2) == 256 * Pow256(1) && Pow256(1) == 256 * Pow256(0);
    assert Pow256(4) == 256 * Pow256(3) && Pow256(3) == 256 * Pow256(2);
    assert Pow256(6) == 256 * Pow256(5) && Pow256(5) == 256 * Pow256(4);
    assert Pow256(8) == 256 * Pow256(7) && Pow256(7) == 256 * Pow256(6);
  }

  /** The low `width` bytes of a number, most significant first. */
  function Be(n: nat, width: nat): (r: Bytes)
    ensures |r| == width
  {
    if width == 0 then [] else Be(n / 256, width - 1) + [n % 256]
  }

  function FromBe(bytes: Bytes): nat {
    if bytes == [] then 0 else 256 * FromBe(bytes[..|bytes| - 1]) + bytes[|bytes| - 1]
  }

  /** The low `width` bytes of a number, least significant first. */
  function Le(n: nat, width: nat): (r: Bytes)
    ensures |r| == width
  {
    if width == 0 then [] else [n % 256] + Le(n / 256, width - 1)
  }

  lemma {:induction false} BeReadsBack(n: nat, width: nat)
    requires n < Pow256(width)
    ensures FromBe(Be(n, width)) == n
  {
    if width > 0 {
      BeReadsBack(n / 256, width - 1);
      assert Be(n, width)[..width - 1] == Be(n / 256, width - 1);
    }
  }

  lemma {:induction false} BeWritesBack(bytes: Bytes)
    ensures FromBe(bytes) < Pow256(|bytes|) && Be(FromBe(bytes), |bytes|) == bytes
  {
    if bytes != [] {
      BeWritesBack(bytes[..|bytes| - 1]);
    }
  }

  lemma {:induction false} LeInjective(m: nat, n: nat, width: nat)
    requires m < Pow256(width) && n < Pow256(width) && Le(m, width) == Le(n, width)
    ensures m == n
  {
    if width > 0 {
      assert Le(m, width)[0] == m % 256 && Le(n, width)[0] == n % 256;
      assert Le(m, width)[1..] == Le(m / 256, width - 1) && Le(n, width)[1..] == Le(n / 256, width - 1);
      LeInjective(m / 256, n / 256, width - 1);
    }
  }

  // ---- text ----

  function Code(c: char): byte {
    if 0 <= c as int < 256 then c as int else 0
  }

  /** The bytes of an ASCII text. */
  function Ascii(text: string): (r: Bytes)
    ensures |r| == |text| && forall k :: 0 <= k < |text| ==> r[k] == Code(text[k])
  {
    seq(|text|, k requires 0 <= k < |text| => Code(text[k]))
  }

  // ---- fields ----

  function PutU16(n: nat): Bytes { Be(n, 2) }
  function PutU64(n: nat): Bytes { Be(n, 8) }
  function PutFlag(b: bool): Bytes { if b then [1] else [0] }
  function PutBytes(bytes: Bytes): Bytes { PutU64(|bytes|) + bytes }

  // ---- reading a field off the front ----

  /** A field and what follows it. */
  type Parsed<T> = Result<(T, Bytes), WireError>

  function Take(b: Bytes, n: nat): Parsed<Bytes> {
    if n > |b| then Err(Malformed) else Ok((b[..n], b[n..]))
  }

  function TakeU64(b: Bytes): Parsed<u64> {
    var t :- Take(b, 8);
    BeWritesBack(t.0);
    Widths();
    Ok((FromBe(t.0), t.1))
  }

  function TakeU16(b: Bytes): Parsed<u16> {
    var t :- Take(b, 2);
    BeWritesBack(t.0);
    Widths();
    Ok((FromBe(t.0), t.1))
  }

  function TakeHash(b: Bytes): Parsed<Hash> {
    var t :- Take(b, 32);
    Ok((t.0, t.1))
  }

  function TakeBytes(b: Bytes, max: nat): Parsed<Bytes> {
    var length :- TakeU64(b);
    if length.0 > max then Err(TooLarge) else Take(length.1, length.0)
  }

  function TakeFlag(b: Bytes): Parsed<bool> {
    var t :- Take(b, 1);
    if t.0[0] == 0 then Ok((false, t.1)) else if t.0[0] == 1 then Ok((true, t.1)) else Err(Malformed)
  }

  // ---- every field reads back, and only from its own bytes ----

  lemma TakeSplits(a: Bytes, b: Bytes)
    ensures Take(a + b, |a|) == Ok((a, b))
  {
    assert (a + b)[..|a|] == a && (a + b)[|a|..] == b;
  }

  lemma TakeJoins(b: Bytes, n: nat)
    requires Take(b, n).Ok?
    ensures b == Take(b, n).value.0 + Take(b, n).value.1 && |Take(b, n).value.0| == n
  {}

  lemma U64ReadsBack(n: u64, rest: Bytes)
    ensures TakeU64(PutU64(n) + rest) == Ok((n, rest))
  {
    TakeSplits(PutU64(n), rest);
    Widths();
    BeReadsBack(n, 8);
  }

  lemma U64WritesBack(b: Bytes)
    requires TakeU64(b).Ok?
    ensures b == PutU64(TakeU64(b).value.0) + TakeU64(b).value.1
  {
    TakeJoins(b, 8);
    BeWritesBack(Take(b, 8).value.0);
  }

  lemma U16ReadsBack(n: u16, rest: Bytes)
    ensures TakeU16(PutU16(n) + rest) == Ok((n, rest))
  {
    TakeSplits(PutU16(n), rest);
    Widths();
    BeReadsBack(n, 2);
  }

  lemma U16WritesBack(b: Bytes)
    requires TakeU16(b).Ok?
    ensures b == PutU16(TakeU16(b).value.0) + TakeU16(b).value.1
  {
    TakeJoins(b, 2);
    BeWritesBack(Take(b, 2).value.0);
  }

  lemma HashReadsBack(h: Hash, rest: Bytes)
    ensures TakeHash(h + rest) == Ok((h, rest))
  {
    TakeSplits(h, rest);
  }

  lemma HashWritesBack(b: Bytes)
    requires TakeHash(b).Ok?
    ensures b == TakeHash(b).value.0 + TakeHash(b).value.1
  {
    TakeJoins(b, 32);
  }

  lemma BytesReadBack(bytes: Bytes, max: nat, rest: Bytes)
    requires |bytes| <= max < U64
    ensures TakeBytes(PutBytes(bytes) + rest, max) == Ok((bytes, rest))
  {
    assert PutBytes(bytes) + rest == PutU64(|bytes|) + (bytes + rest);
    U64ReadsBack(|bytes|, bytes + rest);
    TakeSplits(bytes, rest);
  }

  lemma BytesWriteBack(b: Bytes, max: nat)
    requires TakeBytes(b, max).Ok?
    ensures b == PutBytes(TakeBytes(b, max).value.0) + TakeBytes(b, max).value.1
    ensures |TakeBytes(b, max).value.0| <= max
  {
    U64WritesBack(b);
    var length := TakeU64(b).value;
    TakeJoins(length.1, length.0);
    var t := Take(length.1, length.0).value;
    assert PutU64(length.0) + (t.0 + t.1) == (PutU64(length.0) + t.0) + t.1;
  }

  lemma FlagReadsBack(flag: bool, rest: Bytes)
    ensures TakeFlag(PutFlag(flag) + rest) == Ok((flag, rest))
  {
    TakeSplits(PutFlag(flag), rest);
  }

  lemma FlagWritesBack(b: Bytes)
    requires TakeFlag(b).Ok?
    ensures b == PutFlag(TakeFlag(b).value.0) + TakeFlag(b).value.1
  {
    TakeJoins(b, 1);
  }

  // ---- reading a prefixed field off two equal byte strings ----

  lemma PeelBytes(a: Bytes, x: Bytes, b: Bytes, y: Bytes)
    requires |a| < U64 && |b| < U64 && PutBytes(a) + x == PutBytes(b) + y
    ensures a == b && x == y
  {
    BytesReadBack(a, U64 - 1, x);
    BytesReadBack(b, U64 - 1, y);
  }

  lemma PeelU64(m: u64, x: Bytes, n: u64, y: Bytes)
    requires PutU64(m) + x == PutU64(n) + y
    ensures m == n && x == y
  {
    U64ReadsBack(m, x);
    U64ReadsBack(n, y);
  }

  lemma PeelFixed(a: Bytes, x: Bytes, b: Bytes, y: Bytes)
    requires |a| == |b| && a + x == b + y
    ensures a == b && x == y
  {
    TakeSplits(a, x);
    TakeSplits(b, y);
  }
}
