/** The Adler-32 checksum of section 8.2 of RFC 1950, and what it cannot miss. */
module Adler32 {
  const BASE: nat := 65521

  type Byte = x: int | 0 <= x < 256

  /** s1 and s2 after the first `n` bytes, reduced after every byte. */
  function Sums(data: seq<Byte>, n: nat): (int, int)
    requires n <= |data|
  {
    if n == 0 then (1, 0)
    else
      var (s1, s2) := Sums(data, n - 1);
      var s1' := (s1 + data[n - 1]) % BASE;
      (s1', (s2 + s1') % BASE)
  }

  function Checksum(data: seq<Byte>): (c: nat)
    ensures c < 0x1_0000_0000
  {
    SumsInRange(data, |data|);
    var (s1, s2) := Sums(data, |data|);
    s2 * 0x1_0000 + s1
  }

  lemma {:induction false} SumsInRange(data: seq<Byte>, n: nat)
    requires n <= |data|
    ensures 0 <= Sums(data, n).0 < BASE && 0 <= Sums(data, n).1 < BASE
  {
    if n > 0 {
      SumsInRange(data, n - 1);
    }
  }

  // ---- The sums before reduction -----------------------------------------------------

  function Raw1(data: seq<Byte>, n: nat): int
    requires n <= |data|
  {
    if n == 0 then 1 else Raw1(data, n - 1) + data[n - 1]
  }

  function Raw2(data: seq<Byte>, n: nat): int
    requires n <= |data|
  {
    if n == 0 then 0 else Raw2(data, n - 1) + Raw1(data, n)
  }

  lemma AddMod(x: int, y: int)
    ensures (x % BASE + y) % BASE == (x + y) % BASE
  {
  }

  lemma {:induction false} SumsAreRaw(data: seq<Byte>, n: nat)
    requires n <= |data|
    ensures Sums(data, n) == (Raw1(data, n) % BASE, Raw2(data, n) % BASE)
  {
    if n > 0 {
      SumsAreRaw(data, n - 1);
      AddMod(Raw1(data, n - 1), data[n - 1]);
      AddMod(Raw2(data, n - 1), Raw1(data, n) % BASE);
      AddMod(Raw1(data, n), Raw2(data, n - 1));
    }
  }

  lemma {:induction false} Raw1Update(data: seq<Byte>, i: nat, x: Byte, n: nat)
    requires i < |data| && n <= |data|
    ensures Raw1(data[i := x], n) == Raw1(data, n) + if i < n then x as int - data[i] else 0
  {
    if n > 0 {
      Raw1Update(data, i, x, n - 1);
    }
  }

  /** `d` added once for each of `k` bytes. */
  function Gain(k: nat, d: int): int {
    if k == 0 then 0 else Gain(k - 1, d) + d
  }

  lemma {:induction false} GainIsProduct(k: nat, d: int)
    ensures Gain(k, d) == k * d
  {
    if k > 0 {
      GainIsProduct(k - 1, d);
      assert (k - 1) * d + d == k * d;
    }
  }

  lemma {:induction false} GainNegates(k: nat, d: int)
    ensures Gain(k, -d) == -Gain(k, d)
  {
    if k > 0 {
      GainNegates(k - 1, d);
    }
  }

  lemma {:induction false} GainsCancel(k: nat, l: nat, d: int)
    ensures Gain(k + l, d) + Gain(l, -d) == Gain(k, d)
  {
    if l > 0 {
      GainsCancel(k, l - 1, d);
    }
  }

  /** A byte weighs as much as there are bytes from it to the end. */
  lemma {:induction false} Raw2Update(data: seq<Byte>, i: nat, x: Byte, n: nat)
    requires i < |data| && n <= |data|
    ensures Raw2(data[i := x], n) == Raw2(data, n) + Gain(if i < n then n - i else 0, x as int - data[i])
  {
    if n > 0 {
      Raw2Update(data, i, x, n - 1);
      Raw1Update(data, i, x, n);
    }
  }

  // ---- Which number it is ------------------------------------------------------------

  /** The first `n` bytes added up. */
  function ByteSum(data: seq<Byte>, n: nat): int
    requires n <= |data|
  {
    if n == 0 then 0 else ByteSum(data, n - 1) + data[n - 1]
  }

  /** The first `n` bytes added up, byte `i` taken `total - i` times. */
  function WeightedSum(data: seq<Byte>, n: nat, total: int): int
    requires n <= |data|
  {
    if n == 0 then 0 else WeightedSum(data, n - 1, total) + (total - (n - 1)) * data[n - 1]
  }

  lemma {:induction false} OneWeightMore(data: seq<Byte>, n: nat, total: int)
    requires n <= |data|
    ensures WeightedSum(data, n, total + 1) == WeightedSum(data, n, total) + ByteSum(data, n)
  {
    if n > 0 {
      OneWeightMore(data, n - 1, total);
      var x: int := data[n - 1];
      assert (total + 1 - (n - 1)) * x == (total - (n - 1)) * x + x;
    }
  }

  lemma {:induction false} RawIsSum(data: seq<Byte>, n: nat)
    requires n <= |data|
    ensures Raw1(data, n) == 1 + ByteSum(data, n)
    ensures Raw2(data, n) == n + WeightedSum(data, n, n)
  {
    if n > 0 {
      RawIsSum(data, n - 1);
      OneWeightMore(data, n - 1, n - 1);
      var x: int := data[n - 1];
      assert (n - (n - 1)) * x == x;
    }
  }

  /**
   * The low half is one more than the sum of the bytes, the high half their number and the
   * sum in which each byte counts once for every byte from it to the end, both modulo 65521.
   */
  lemma ChecksumIs(data: seq<Byte>)
    ensures Checksum(data) % 0x1_0000 == (1 + ByteSum(data, |data|)) % 65521
    ensures Checksum(data) / 0x1_0000 == (|data| + WeightedSum(data, |data|, |data|)) % 65521
  {
    RawIsSum(data, |data|);
    SumsAreRaw(data, |data|);
    SumsInRange(data, |data|);
  }

  // ---- What is always noticed --------------------------------------------------------

  lemma DistinctMod(x: int, d: int)
    requires -256 < d < 256 && d != 0
    ensures (x + d) % BASE != x % BASE
  {
  }

  lemma Unpack(a: nat, b: nat, c: nat, d: nat)
    requires a < BASE && c < BASE && b * 0x1_0000 + a == d * 0x1_0000 + c
    ensures a == c && b == d
  {
  }

  lemma ChecksumDiffers(u: seq<Byte>, v: seq<Byte>)
    requires Raw1(u, |u|) % BASE != Raw1(v, |v|) % BASE || Raw2(u, |u|) % BASE != Raw2(v, |v|) % BASE
    ensures Checksum(u) != Checksum(v)
  {
    SumsAreRaw(u, |u|);
    SumsAreRaw(v, |v|);
    SumsInRange(u, |u|);
    SumsInRange(v, |v|);
    if Checksum(u) == Checksum(v) {
      Unpack(Sums(u, |u|).0, Sums(u, |u|).1, Sums(v, |v|).0, Sums(v, |v|).1);
    }
  }

  /** A change of one byte changes s1. */
  lemma ByteChangeNoticed(data: seq<Byte>, i: nat, x: Byte)
    requires i < |data| && x != data[i]
    ensures Checksum(data[i := x]) != Checksum(data)
  {
    Raw1Update(data, i, x, |data|);
    DistinctMod(Raw1(data, |data|), x as int - data[i]);
    ChecksumDiffers(data[i := x], data);
  }

  function Swap(data: seq<Byte>, i: nat, j: nat): (swapped: seq<Byte>)
    requires i < |data| && j < |data|
    ensures |swapped| == |data|
  {
    data[i := data[j]][j := data[i]]
  }

  /** A swap moves s2 by the difference, once for every step between. */
  lemma SwapShift(data: seq<Byte>, i: nat, j: nat)
    requires i < j < |data|
    ensures Raw2(Swap(data, i, j), |data|)
         == Raw2(data, |data|) + Gain(j - i, data[j] as int - data[i])
  {
    var n := |data|;
    var mid := data[i := data[j]];
    Raw2Update(data, i, data[j], n);
    Raw2Update(mid, j, data[i], n);
    GainsCancel(j - i, n - j, data[j] as int - data[i]);
  }

  /** No number from 2 up to `n` divides BASE. */
  predicate NoDivisor(n: nat) {
    n < 2 || (BASE % n != 0 && NoDivisor(n - 1))
  }

  lemma {:induction false} NoDivisorBelow(n: nat, d: nat)
    requires NoDivisor(n) && 2 <= d <= n
    ensures BASE % d != 0
  {
    if d < n {
      NoDivisorBelow(n - 1, d);
    }
  }

  lemma NoDivisorUpTo64()
    ensures NoDivisor(64)
  {
    assert NoDivisor(16);
    assert NoDivisor(32);
    assert NoDivisor(48);
  }

  lemma NoDivisorUpTo128()
    ensures NoDivisor(128)
  {
    NoDivisorUpTo64();
    assert NoDivisor(80);
    assert NoDivisor(96);
    assert NoDivisor(112);
  }

  lemma NoDivisorUpTo192()
    ensures NoDivisor(192)
  {
    NoDivisorUpTo128();
    assert NoDivisor(144);
    assert NoDivisor(160);
    assert NoDivisor(176);
  }

  lemma NoDivisorUpTo255()
    ensures NoDivisor(255)
  {
    NoDivisorUpTo192();
    assert NoDivisor(208);
    assert NoDivisor(224);
    assert NoDivisor(240);
  }

  /**
   * BASE has no divisor below 256, so it divides no product of a number below 256 and one
   * below BASE: otherwise it would divide the product with the remainder of BASE too.
   */
  lemma {:induction false} NoZeroProduct(d: nat, e: nat)
    requires 1 <= d < 256 && 1 <= e < BASE
    ensures d * e % BASE != 0
    decreases d
  {
    if d > 1 {
      NoDivisorUpTo255();
      NoDivisorBelow(255, d);
      var q, r := BASE / d, BASE % d;
      NoZeroProduct(r, e);
      if d * e % BASE == 0 {
        var m := d * e / BASE;
        assert d * e == BASE * m;
        calc {
          r * e;
          (BASE - q * d) * e;
          BASE * e - q * (d * e);
          BASE * e - q * (BASE * m);
          BASE * (e - q * m);
        }
        MultipleIsZero(r * e, e - q * m);
      }
    }
  }

  lemma MultipleIsZero(x: int, k: int)
    requires x == BASE * k
    ensures x % BASE == 0
  {
  }

  lemma ShiftedMod(x: int, p: int)
    requires p % BASE != 0
    ensures (x + p) % BASE != x % BASE && (x - p) % BASE != x % BASE
  {
  }

  lemma GainMoves(x: int, d: int, e: nat)
    requires d != 0 && -256 < d < 256 && 1 <= e < BASE
    ensures (x + Gain(e, d)) % BASE != x % BASE
  {
    var a := if d > 0 then d else -d;
    NoZeroProduct(a, e);
    GainIsProduct(e, a);
    assert e * a == a * e;
    ShiftedMod(x, Gain(e, a));
    GainNegates(e, a);
  }

  /** A swap of two different bytes less than BASE apart changes s2. */
  lemma SwapNoticed(data: seq<Byte>, i: nat, j: nat)
    requires i < j < |data| && j - i < BASE && data[i] != data[j]
    ensures Checksum(Swap(data, i, j)) != Checksum(data)
  {
    SwapShift(data, i, j);
    GainMoves(Raw2(data, |data|), data[j] as int - data[i], j - i);
    ChecksumDiffers(Swap(data, i, j), data);
  }
}
