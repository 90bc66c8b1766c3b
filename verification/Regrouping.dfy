/** Regrouping bytes into 5-bit symbols and back (convertBits, internal/bch/cashaddr.go). */
module Regrouping {
  import opened Bytes

  // ---------------------------------------------------------------- regrouping

  /** The bits of all `n`-bit groups, in order. */
  function Flatten(data: Bytes, n: nat): seq<bool> {
    if data == [] then [] else ToBits(data[0], n) + Flatten(data[1..], n)
  }

  /** Reference regrouping: cut a bit string into `n`-bit numbers; a short tail is zero-filled or dropped. */
  function Groups(bits: seq<bool>, n: nat, pad: bool): (r: Bytes)
    requires 0 < n <= 8
    ensures Fits(r, n)
    decreases |bits|
  {
    if |bits| >= n then [ByteOf(bits[..n])] + Groups(bits[n..], n, pad)
    else if pad && bits != [] then [ByteOf(bits + Zeros(n - |bits|))]
    else []
  }

  function ByteOf(bits: seq<bool>): (b: byte)
    requires |bits| <= 8
    ensures b == FromBits(bits) < Pow2(|bits|)
  {
    Pow2Monotone(|bits|, 8);
    assert Pow2(8) == 256;
    FromBits(bits)
  }

  lemma Pow2Monotone(a: nat, b: nat)
    requires a <= b
    ensures Pow2(a) <= Pow2(b)
  {
  }

  lemma {:induction false} FlattenAppend(a: Bytes, b: Bytes, n: nat)
    ensures Flatten(a + b, n) == Flatten(a, n) + Flatten(b, n)
  {
    if a == [] {
      assert a + b == b;
    } else {
      FlattenAppend(a[1..], b, n);
      assert (a + b)[1..] == a[1..] + b;
    }
  }

  lemma FlattenOne(x: byte, n: nat)
    ensures Flatten([x], n) == ToBits(x, n)
  {
  }

  lemma GroupsCons(x: byte, tail: seq<bool>, n: nat, pad: bool)
    requires 0 < n <= 8 && x < Pow2(n)
    ensures Groups(ToBits(x, n) + tail, n, pad) == [x] + Groups(tail, n, pad)
  {
    var bits := ToBits(x, n) + tail;
    assert bits[..n] == ToBits(x, n) && bits[n..] == tail;
    FromToBits(x, n);
  }

  /** Whole groups come back unchanged; only the tail depends on `pad`. */
  lemma {:induction false} GroupsOfFlatten(data: Bytes, rest: seq<bool>, n: nat, pad: bool)
    requires 0 < n <= 8 && Fits(data, n)
    ensures Groups(Flatten(data, n) + rest, n, pad) == data + Groups(rest, n, pad)
    decreases |data|
  {
    if data == [] {
      assert Flatten(data, n) + rest == rest;
    } else {
      var xs := data[1..];
      GroupsOfFlatten(xs, rest, n, pad);
      FlattenHead(data, rest, n);
      GroupsCons(data[0], Flatten(xs, n) + rest, n, pad);
      ConsAppend(data, Groups(rest, n, pad));
    }
  }

  lemma FlattenHead(data: Bytes, rest: seq<bool>, n: nat)
    requires data != []
    ensures Flatten(data, n) + rest == ToBits(data[0], n) + (Flatten(data[1..], n) + rest)
  {
  }

  lemma ConsAppend<T>(a: seq<T>, b: seq<T>)
    requires a != []
    ensures [a[0]] + (a[1..] + b) == a + b
  {
  }

  lemma FlattenFullGroup(hi: seq<bool>, lo: seq<bool>, n: nat)
    requires 0 < n <= 8 && |hi| == n
    ensures Flatten(Groups(hi + lo, n, true), n) == hi + Flatten(Groups(lo, n, true), n)
  {
    assert (hi + lo)[..n] == hi && (hi + lo)[n..] == lo;
    ToFromBits(hi);
  }

  lemma FlattenShortGroup(bits: seq<bool>, n: nat)
    requires 0 < |bits| < n <= 8
    ensures Flatten(Groups(bits, n, true), n) == bits + Zeros(n - |bits|)
  {
    var full := bits + Zeros(n - |bits|);
    FlattenOne(ByteOf(full), n);
    ToFromBits(full);
  }

  /** Padded grouping loses no bit: it spells the input followed by fewer than `n` zeros. */
  lemma {:induction false} FlattenOfGroups(bits: seq<bool>, n: nat) returns (z: nat)
    requires 0 < n <= 8
    ensures z < n && Flatten(Groups(bits, n, true), n) == bits + Zeros(z)
    decreases |bits|
  {
    if |bits| >= n {
      var hi, lo := bits[..n], bits[n..];
      assert bits == hi + lo;
      z := FlattenOfGroups(lo, n);
      FlattenFullGroup(hi, lo, n);
      assert bits + Zeros(z) == hi + (lo + Zeros(z));
    } else if bits == [] {
      z := 0;
    } else {
      z := n - |bits|;
      FlattenShortGroup(bits, n);
    }
  }

  /** Every element is an `n`-bit group. */
  ghost predicate Fits(data: Bytes, n: nat) {
    forall i :: 0 <= i < |data| ==> data[i] < Pow2(n)
  }

  function Regroup(data: Bytes, from: nat, to: nat, pad: bool): (r: Bytes)
    requires 0 < to <= 8
    ensures Fits(r, to)
  {
    Groups(Flatten(data, from), to, pad)
  }

  /** Regrouping to narrower groups with padding and back without it is the identity. */
  lemma RegroupRoundTrip(data: Bytes, from: nat, to: nat)
    requires 0 < to <= from <= 8 && Fits(data, from)
    ensures Regroup(Regroup(data, from, to, true), to, from, false) == data
  {
    var z := FlattenOfGroups(Flatten(data, from), to);
    GroupsOfFlatten(data, Zeros(z), from, false);
    assert data + [] == data;
  }

  /** One place of a 32-bit left shift: bit 31 is lost. */
  function Double32(v: nat): nat {
    2 * LowBits(v, 31)
  }

  /** A 32-bit left shift. */
  function Shl32(v: nat, k: nat): nat
    decreases k
  {
    if k == 0 then v else Shl32(Double32(v), k - 1)
  }

  lemma DoubledLowBits(v: nat, n: nat)
    requires n < 32
    ensures ToBits(Double32(v), n + 1) == ToBits(v, n) + [false]
  {
    var w := LowBits(v, 31);
    assert (2 * w) / 2 == w;
    LowBitsKeep(v, 31, n);
  }

  lemma {:induction false} ShiftedLowBits(v: nat, n: nat, k: nat)
    requires n + k <= 32
    ensures ToBits(Shl32(v, k), n + k) == ToBits(v, n) + Zeros(k)
    decreases k
  {
    if k > 0 {
      DoubledLowBits(v, n);
      ShiftedLowBits(Double32(v), n + 1, k - 1);
      assert [false] + Zeros(k - 1) == Zeros(k);
    }
  }

  /** Pushing a group into the 32-bit accumulator keeps the pending bits and adds the new ones, although
      the shift drops everything above bit 31. */
  lemma AccumulatorPush(acc: nat, b: nat, bits: nat, from: nat)
    requires b < Pow2(from) && bits + from <= 32
    ensures ToBits(Shl32(acc, from) + b, bits + from) == ToBits(acc, bits) + ToBits(b, from)
  {
    ShiftedLowBits(acc, bits, from);
    ToBitsFill(Shl32(acc, from), b, ToBits(acc, bits), from);
  }

  /** `seen` is spelled by the groups already emitted and the pending low bits of the accumulator. */
  ghost predicate Pending(seen: seq<bool>, out: Bytes, acc: nat, bits: nat, to: nat) {
    Fits(out, to) && seen == Flatten(out, to) + ToBits(acc, bits)
  }

  /** The inner loop: emit every complete group held by the accumulator. */
  method EmitGroups(before: Bytes, acc: nat, pending: nat, to: nat, ghost seen: seq<bool>)
      returns (out: Bytes, bits: nat)
    requires 0 < to <= 8 && Pending(seen, before, acc, pending, to)
    ensures bits < to && Pending(seen, out, acc, bits, to)
  {
    out, bits := before, pending;
    while bits >= to
      invariant Pending(seen, out, acc, bits, to)
    {
      bits := bits - to;
      EmitGroup(seen, out, acc, bits, to);
      out := out + [LowByte(Shr(acc, bits), to)];
    }
  }

  method ConvertBits(data: Bytes, from: nat, to: nat, pad: bool) returns (out: Bytes)
    requires 0 < from <= 8 && 0 < to <= 8
    requires Fits(data, from)
    ensures out == Regroup(data, from, to, pad)
  {
    var acc: nat, bits: nat := 0, 0;
    out := [];
    ghost var seen := [];
    for i := 0 to |data|
      invariant bits < to
      invariant seen == Flatten(data[..i], from) && Pending(seen, out, acc, bits, to)
    {
      seen := NextGroup(data, i, from, seen, out, acc, bits, to);
      acc := Shl32(acc, from) + data[i];
      out, bits := EmitGroups(out, acc, bits + from, to, seen);
    }
    LastGroup(data, seen, out, acc, bits, from, to, pad);
    out := out + Tail(acc, bits, to, pad);
  }

  /** The zero-filled last group, if there is one to emit. */
  function Tail(acc: nat, bits: nat, to: nat, pad: bool): Bytes
    requires bits < to <= 8
  {
    if pad && bits > 0 then [LowByte(Shl32(acc, to - bits), to)] else []
  }

  /** The mask `v & ((1 << n) - 1)` as a byte. */
  function LowByte(v: nat, n: nat): (b: byte)
    requires n <= 8
    ensures b < Pow2(n)
  {
    Pow2Monotone(n, 8);
    assert Pow2(8) == 256;
    LowBits(v, n)
  }

  lemma NextGroup(data: Bytes, i: nat, from: nat, seen: seq<bool>, out: Bytes, acc: nat, bits: nat, to: nat)
      returns (seen': seq<bool>)
    requires i < |data| && Fits(data, from) && bits + from <= 32
    requires seen == Flatten(data[..i], from) && Pending(seen, out, acc, bits, to)
    ensures seen' == Flatten(data[..i + 1], from)
    ensures Pending(seen', out, Shl32(acc, from) + data[i], bits + from, to)
  {
    hide Flatten, Shl32;
    seen' := seen + ToBits(data[i], from);
    assert data[..i + 1] == data[..i] + [data[i]];
    FlattenAppend(data[..i], [data[i]], from);
    FlattenOne(data[i], from);
    AccumulatorPush(acc, data[i], bits, from);
  }

  lemma EmitGroup(seen: seq<bool>, out: Bytes, acc: nat, bits: nat, to: nat)
    requires to <= 8 && Pending(seen, out, acc, bits + to, to)
    ensures Pending(seen, out + [LowByte(Shr(acc, bits), to)], acc, bits, to)
  {
    var x := LowByte(Shr(acc, bits), to);
    ToBitsSplit(acc, to, bits);
    LowBitsSpelled(Shr(acc, bits), to);
    assert ToBits(acc, bits + to) == ToBits(x, to) + ToBits(acc, bits);
    FlattenAppend(out, [x], to);
    FlattenOne(x, to);
  }

  lemma PadGroup(acc: nat, bits: nat, to: nat)
    requires 0 < bits < to <= 8
    ensures Groups(ToBits(acc, bits), to, true) == [LowByte(Shl32(acc, to - bits), to)]
  {
    var shifted := Shl32(acc, to - bits);
    AccumulatorPush(acc, 0, bits, to - bits);
    ToBitsZero(to - bits);
    LowBitsSpelled(shifted, to);
  }

  /** What is left in the accumulator decides the last group. */
  lemma LastGroup(data: Bytes, seen: seq<bool>, out: Bytes, acc: nat, bits: nat, from: nat, to: nat, pad: bool)
    requires bits < to <= 8 && Pending(seen, out, acc, bits, to)
    requires seen == Flatten(data[..|data|], from)
    ensures Regroup(data, from, to, pad) == out + Tail(acc, bits, to, pad)
  {
    assert data[..|data|] == data;
    GroupsOfFlatten(out, ToBits(acc, bits), to, pad);
    if pad && bits > 0 {
      PadGroup(acc, bits, to);
    } else {
      assert Groups(ToBits(acc, bits), to, pad) == [];
    }
  }
}
