/** Byte buffers and the little-endian integers stored in them. */
module Bytes {
  type byte = x: int | 0 <= x < 0x100

  const TWO_32: int := 0x1_0000_0000
  const TWO_64: int := 0x1_0000_0000_0000_0000
  const MAX_INT64: int := 0x7FFF_FFFF_FFFF_FFFF
  const MIN_INT64: int := -0x8000_0000_0000_0000

  type int32 = x: int | -0x8000_0000 <= x < 0x8000_0000
  type int64 = x: int | MIN_INT64 <= x <= MAX_INT64
  type uint64 = x: int | 0 <= x < TWO_64

  function Pow256(k: nat): (p: nat)
    ensures p >= 1
  {
    if k == 0 then 1 else 256 * Pow256(k - 1)
  }

  lemma Pow256Values()
    ensures Pow256(4) == TWO_32 && Pow256(8) == TWO_64
  {
    assert Pow256(1) == 0x100;
    assert Pow256(2) == 0x1_0000;
    assert Pow256(3) == 0x100_0000;
    assert Pow256(4) == TWO_32;
    assert Pow256(5) == 0x100 * TWO_32;
    assert Pow256(6) == 0x1_0000 * TWO_32;
    assert Pow256(7) == 0x100_0000 * TWO_32;
  }

  /** The k low-order bytes of n, least significant first. */
  function LittleEndian(n: nat, k: nat): (s: seq<byte>)
    ensures |s| == k
  {
    if k == 0 then [] else [n % 256] + LittleEndian(n / 256, k - 1)
  }

  function FromLittleEndian(s: seq<byte>): (n: nat)
    ensures n < Pow256(|s|)
  {
    if s == [] then 0 else s[0] + 256 * FromLittleEndian(s[1..])
  }

  lemma {:induction false} LittleEndianRoundTrip(n: nat, k: nat)
    requires n < Pow256(k)
    ensures FromLittleEndian(LittleEndian(n, k)) == n
  {
    if k != 0 {
      LittleEndianRoundTrip(n / 256, k - 1);
      assert LittleEndian(n, k)[1..] == LittleEndian(n / 256, k - 1);
    }
  }

  /** Go's conversion between signed and unsigned words: two's complement. */
  function ToUnsigned(v: int, modulus: nat): int {
    if v < 0 then v + modulus else v
  }

  function ToSigned(u: int, modulus: nat): int {
    if 2 * u >= modulus then u - modulus else u
  }

  /** b with the bytes from offset on replaced by s. */
  function Overwrite(b: seq<byte>, offset: nat, s: seq<byte>): (r: seq<byte>)
    requires offset + |s| <= |b|
    ensures |r| == |b|
    ensures r[offset..offset + |s|] == s
    ensures forall i :: 0 <= i < |b| && !(offset <= i < offset + |s|) ==> r[i] == b[i]
  {
    b[..offset] + s + b[offset + |s|..]
  }

  /** Writes the low k bytes of value at offset, as encoding/binary's PutUint functions do. */
  method PutLittleEndian(buffer: array<byte>, offset: nat, value: nat, k: nat)
    requires offset + k <= buffer.Length
    modifies buffer
    ensures buffer[..] == Overwrite(old(buffer[..]), offset, LittleEndian(value, k))
  {
    var digits := LittleEndian(value, k);
    for i := 0 to k
      invariant forall j :: 0 <= j < i ==> buffer[offset + j] == digits[j]
      invariant forall j :: 0 <= j < buffer.Length && !(offset <= j < offset + i) ==> buffer[j] == old(buffer[j])
    {
      buffer[offset + i] := digits[i];
    }
    assert buffer[..] == Overwrite(old(buffer[..]), offset, digits);
  }

  /** The bytes stand in the order of their weights, the lowest one first. */
  lemma {:induction false} LittleEndianAt(n: nat, k: nat, i: nat)
    requires i < k
    ensures LittleEndian(n, k)[i] == n / Pow256(i) % 256
  {
    if i > 0 {
      LittleEndianAt(n / 256, k - 1, i - 1);
      Divided(n, Pow256(i - 1));
    }
  }

  lemma Divided(n: nat, p: nat)
    requires p > 0
    ensures n / 256 / p == n / (256 * p)
  {
    var s := n / 256;
    WithRemainder(s, p);
    DividedBy(n, p, s, n % 256, s / p, s % p);
  }

  lemma WithRemainder(s: nat, p: nat)
    requires p > 0
    ensures s == s / p * p + s % p && 0 <= s % p < p
  {
  }

  lemma DividedBy(n: nat, p: nat, s: nat, t: nat, q: nat, r: nat)
    requires n == s * 256 + t && t < 256 && s == q * p + r && r < p
    ensures n / (256 * p) == q
  {
    Regroup(q, p, r, t);
    QuotientIs(q, 256 * p, r * 256 + t);
  }

  lemma Regroup(q: nat, p: nat, r: nat, t: nat)
    ensures (q * p + r) * 256 + t == q * (256 * p) + (r * 256 + t)
  {
  }

  lemma QuotientIs(q: nat, p: nat, s: nat)
    requires 0 <= s < p
    ensures (q * p + s) / p == q
  {
    var d := (q * p + s) / p;
    var e := (q * p + s) % p;
    assert d * p + e == q * p + s;
    if d > q { Apart(d, q, p); }
    if d < q { Apart(q, d, p); }
  }

  lemma Apart(a: nat, b: nat, p: nat)
    requires a > b
    ensures a * p >= b * p + p
  {
    assert a * p == (b + 1) * p + (a - b - 1) * p;
    assert (b + 1) * p == b * p + p;
    assert (a - b - 1) * p >= 0;
  }
}
