/** Byte strings, powers of two, big-endian bit strings and fixed-width little-endian integers. */
module Bytes {
  type byte = x: int | 0 <= x < 256
  type Bytes = seq<byte>

  datatype Option<+T> = None | Some(value: T)

  function Pow2(n: nat): (p: nat)
    ensures p > 0
  {
    if n == 0 then 1 else 2 * Pow2(n - 1)
  }

  /** The low `n` bits of `v`, most significant first. */
  function ToBits(v: nat, n: nat): (r: seq<bool>)
    ensures |r| == n
  {
    if n == 0 then [] else ToBits(v / 2, n - 1) + [v % 2 == 1]
  }

  /** The number a bit string spells, most significant bit first. */
  function FromBits(bits: seq<bool>): (v: nat)
    ensures v < Pow2(|bits|)
  {
    if bits == [] then 0
    else 2 * FromBits(bits[..|bits| - 1]) + if bits[|bits| - 1] then 1 else 0
  }

  function Zeros(n: nat): (r: seq<bool>)
    ensures |r| == n && forall i :: 0 <= i < n ==> !r[i]
  {
    seq(n, i => false)
  }

  lemma {:induction false} FromToBits(v: nat, n: nat)
    requires v < Pow2(n)
    ensures FromBits(ToBits(v, n)) == v
  {
    if n > 0 {
      FromToBits(v / 2, n - 1);
      assert ToBits(v, n)[..n - 1] == ToBits(v / 2, n - 1);
    }
  }

  lemma {:induction false} ToFromBits(bits: seq<bool>)
    ensures ToBits(FromBits(bits), |bits|) == bits
  {
    if bits != [] {
      var k := |bits| - 1;
      ToFromBits(bits[..k]);
      assert bits == bits[..k] + [bits[k]];
      assert FromBits(bits) / 2 == FromBits(bits[..k]);
    }
  }

  /** `v` shifted right by `k` places. */
  function Shr(v: nat, k: nat): nat {
    if k == 0 then v else Shr(v / 2, k - 1)
  }

  lemma {:induction false} ShrSmall(v: nat, k: nat)
    requires v < Pow2(k)
    ensures Shr(v, k) == 0
  {
    if k > 0 {
      ShrSmall(v / 2, k - 1);
    }
  }

  /** The low `n` bits of `v` as a number: `v` masked with `(1 << n) - 1`. */
  function LowBits(v: nat, n: nat): (r: nat)
    ensures r < Pow2(n)
  {
    if n == 0 then 0 else 2 * LowBits(v / 2, n - 1) + v % 2
  }

  lemma {:induction false} LowBitsSpelled(v: nat, n: nat)
    ensures LowBits(v, n) == FromBits(ToBits(v, n))
    ensures ToBits(LowBits(v, n), n) == ToBits(v, n)
  {
    if n > 0 {
      LowBitsSpelled(v / 2, n - 1);
      assert ToBits(v, n)[..n - 1] == ToBits(v / 2, n - 1);
    }
  }

  /** Splitting the low `n + k` bits into the high `n` and the low `k`. */
  lemma {:induction false} ToBitsSplit(v: nat, n: nat, k: nat)
    ensures ToBits(v, n + k) == ToBits(Shr(v, k), n) + ToBits(v, k)
  {
    if k > 0 {
      ToBitsSplit(v / 2, n, k - 1);
      assert ToBits(v, n + k) == ToBits(v / 2, n + k - 1) + [v % 2 == 1];
    }
  }

  /** Adding a `k`-bit group below zeros writes it there. */
  lemma {:induction false} ToBitsFill(x: nat, b: nat, hi: seq<bool>, k: nat)
    requires b < Pow2(k) && ToBits(x, |hi| + k) == hi + Zeros(k)
    ensures ToBits(x + b, |hi| + k) == hi + ToBits(b, k)
  {
    if k > 0 {
      var n := |hi| + k;
      assert ToBits(x, n)[n - 1] == (hi + Zeros(k))[n - 1];
      assert ToBits(x / 2, n - 1) == (hi + Zeros(k))[..n - 1] == hi + Zeros(k - 1);
      ToBitsFill(x / 2, b / 2, hi, k - 1);
      assert (x + b) / 2 == x / 2 + b / 2 && (x + b) % 2 == b % 2;
    }
  }

  lemma {:induction false} ToBitsZero(n: nat)
    ensures ToBits(0, n) == Zeros(n)
  {
    if n > 0 {
      ToBitsZero(n - 1);
    }
  }

  /** Masking keeps every bit below the mask. */
  lemma {:induction false} LowBitsKeep(v: nat, m: nat, n: nat)
    requires n <= m
    ensures ToBits(LowBits(v, m), n) == ToBits(v, n)
  {
    if n > 0 {
      LowBitsKeep(v / 2, m - 1, n - 1);
    }
  }

  /** A number below `2^k` under a multiple of it. */
  lemma {:induction false} ToBitsJoin(v: nat, d: nat, n: nat, k: nat)
    requires d < Pow2(k)
    ensures ToBits(Pow2(k) * v + d, n + k) == ToBits(v, n) + ToBits(d, k)
  {
    if k > 0 {
      hide ToBits;
      var m := Pow2(k - 1) * v;
      Twice(Pow2(k - 1), v);
      assert Pow2(k) * v + d == 2 * m + d;
      HalfOf(m, d);
      ToBitsJoin(v, d / 2, n, k - 1);
      LowBit(2 * m + d, n + k);
      LowBit(d, k);
    }
  }

  lemma HalfOf(m: nat, d: nat)
    ensures (2 * m + d) / 2 == m + d / 2 && (2 * m + d) % 2 == d % 2
  {
  }

  lemma Twice(a: nat, b: nat)
    ensures 2 * a * b == 2 * (a * b)
  {
  }

  lemma LowBit(v: nat, n: nat)
    requires n > 0
    ensures ToBits(v, n) == ToBits(v / 2, n - 1) + [v % 2 == 1]
  {
  }
}
