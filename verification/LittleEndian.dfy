/** Fixed-width little-endian integers and a reader over an immutable buffer (byteReader, internal/bch/bchtx.go). */
module LittleEndian {
  import opened Bytes

  type uint32 = x: int | 0 <= x < 0x1_0000_0000
  type uint64 = x: int | 0 <= x < 0x1_0000_0000_0000_0000
  type int64 = x: int | -0x8000_0000_0000_0000 <= x < 0x8000_0000_0000_0000

  function Pow256(n: nat): nat {
    if n == 0 then 1 else 256 * Pow256(n - 1)
  }

  function LE(v: nat, n: nat): (r: Bytes)
    ensures |r| == n
  {
    if n == 0 then [] else [v % 256] + LE(v / 256, n - 1)
  }

  function FromLE(b: Bytes): (v: nat)
    ensures v < Pow256(|b|)
  {
    if b == [] then 0 else b[0] + 256 * FromLE(b[1..])
  }

  lemma {:induction false} LittleEndianRoundTrip(v: nat, n: nat)
    requires v < Pow256(n)
    ensures FromLE(LE(v, n)) == v
  {
    if n > 0 {
      LittleEndianRoundTrip(v / 256, n - 1);
    }
  }

  lemma Widths()
    ensures Pow256(2) == 0x1_0000 && Pow256(4) == 0x1_0000_0000 && Pow256(8) == 0x1_0000_0000_0000_0000
  {
    assert Pow256(2) == 256 * Pow256(1);
    assert Pow256(4) == 256 * Pow256(3) && Pow256(3) == 256 * Pow256(2);
    assert Pow256(6) == 256 * Pow256(5) && Pow256(5) == 256 * Pow256(4);
    assert Pow256(8) == 256 * Pow256(7) && Pow256(7) == 256 * Pow256(6);
  }

  /** Two's complement. */
  function ToUnsigned(v: int64): uint64 {
    if v < 0 then v + 0x1_0000_0000_0000_0000 else v
  }

  function ToSigned(v: uint64): int64 {
    if v >= 0x8000_0000_0000_0000 then v - 0x1_0000_0000_0000_0000 else v
  }

  // ---------------------------------------------------------------- taking values off the front

  function TakeByte(b: Bytes): Option<(byte, Bytes)> {
    if b == [] then None else Some((b[0], b[1..]))
  }

  function TakeBytes(b: Bytes, n: int): Option<(Bytes, Bytes)> {
    if n < 0 || n > |b| then None else Some((b[..n], b[n..]))
  }

  function TakeUint32(b: Bytes): Option<(uint32, Bytes)> {
    if |b| < 4 then None else Widths(); Some((FromLE(b[..4]), b[4..]))
  }

  function TakeInt64(b: Bytes): Option<(int64, Bytes)> {
    if |b| < 8 then None else Widths(); Some((ToSigned(FromLE(b[..8])), b[8..]))
  }

  /** How many bytes follow the first byte of a CompactSize integer. */
  function ExtraBytes(first: byte): nat {
    if first == 0xfd then 2 else if first == 0xfe then 4 else if first == 0xff then 8 else 0
  }

  function TakeVarInt(b: Bytes): Option<(uint64, Bytes)> {
    if b == [] || |b| < 1 + ExtraBytes(b[0]) then None
    else
      Widths();
      var n := ExtraBytes(b[0]);
      Some((if n == 0 then b[0] else FromLE(b[1..1 + n]), b[1 + n..]))
  }

  /** A length prefix is converted to a signed machine integer before it is used. */
  function TakeVarBytes(b: Bytes): Option<(Bytes, Bytes)> {
    match TakeVarInt(b)
    case None => None
    case Some((n, rest)) => TakeBytes(rest, ToSigned(n))
  }

  // ---------------------------------------------------------------- writing

  function VarInt(n: uint64): Bytes {
    if n < 0xfd then [n]
    else if n <= 0xffff then [0xfd] + LE(n, 2)
    else if n <= 0xffff_ffff then [0xfe] + LE(n, 4)
    else [0xff] + LE(n, 8)
  }

  function VarBytes(b: Bytes): Bytes
    requires |b| < 0x8000_0000_0000_0000
  {
    VarInt(|b|) + b
  }

  lemma TakeBytesAppend(a: Bytes, rest: Bytes)
    ensures TakeBytes(a + rest, |a|) == Some((a, rest))
  {
    assert (a + rest)[..|a|] == a && (a + rest)[|a|..] == rest;
  }

  lemma Uint32RoundTrip(v: uint32, rest: Bytes)
    ensures TakeUint32(LE(v, 4) + rest) == Some((v, rest))
  {
    Widths();
    LittleEndianRoundTrip(v, 4);
    TakeBytesAppend(LE(v, 4), rest);
  }

  lemma Int64RoundTrip(v: int64, rest: Bytes)
    ensures TakeInt64(LE(ToUnsigned(v), 8) + rest) == Some((v, rest))
  {
    Widths();
    LittleEndianRoundTrip(ToUnsigned(v), 8);
    TakeBytesAppend(LE(ToUnsigned(v), 8), rest);
  }

  lemma VarIntWide(n: uint64, first: byte, k: nat, rest: Bytes)
    requires k == ExtraBytes(first) > 0 && n < Pow256(k)
    ensures TakeVarInt([first] + LE(n, k) + rest) == Some((n, rest))
  {
    var b := [first] + LE(n, k) + rest;
    LittleEndianRoundTrip(n, k);
    assert b[1..1 + k] == LE(n, k) && b[1 + k..] == rest;
  }

  lemma VarIntRoundTrip(n: uint64, rest: Bytes)
    ensures TakeVarInt(VarInt(n) + rest) == Some((n, rest))
  {
    Widths();
    if n < 0xfd {
      assert ([n] + rest)[1..] == rest;
    } else if n <= 0xffff {
      VarIntWide(n, 0xfd, 2, rest);
    } else if n <= 0xffff_ffff {
      VarIntWide(n, 0xfe, 4, rest);
    } else {
      VarIntWide(n, 0xff, 8, rest);
    }
  }

  lemma VarBytesRoundTrip(b: Bytes, rest: Bytes)
    requires |b| < 0x8000_0000_0000_0000
    ensures TakeVarBytes(VarBytes(b) + rest) == Some((b, rest))
  {
    assert VarBytes(b) + rest == VarInt(|b|) + (b + rest);
    VarIntRoundTrip(|b|, b + rest);
    TakeBytesAppend(b, rest);
  }

  // ---------------------------------------------------------------- repeated elements

  /** `n` elements in a row, each taken by `p`. */
  function TakeMany<T>(p: Bytes -> Option<(T, Bytes)>, b: Bytes, n: nat): Option<(seq<T>, Bytes)>
    decreases n
  {
    if n == 0 then Some(([], b))
    else
      match p(b)
      case None => None
      case Some((v, b1)) =>
        match TakeMany(p, b1, n - 1)
        case None => None
        case Some((vs, b2)) => Some(([v] + vs, b2))
  }

  function Concat(parts: seq<Bytes>): Bytes {
    if parts == [] then [] else parts[0] + Concat(parts[1..])
  }

  /** All the values, or none if one is missing. */
  function AllOf<T>(rs: seq<Option<T>>): Option<seq<T>> {
    if rs == [] then Some([])
    else
      match (rs[0], AllOf(rs[1..]))
      case (Some(v), Some(vs)) => Some([v] + vs)
      case _ => None
  }

  /** `p` reads `part` as `r`, whatever follows it. */
  ghost predicate Reads<T(!new)>(p: Bytes -> Option<(T, Bytes)>, part: Bytes, r: Option<T>) {
    forall rest: Bytes :: p(part + rest) == if r.Some? then Some((r.value, rest)) else None
  }

  lemma {:induction false} TakeManyRoundTrip<T(!new)>(p: Bytes -> Option<(T, Bytes)>, parts: seq<Bytes>,
      rs: seq<Option<T>>, rest: Bytes)
    requires |parts| == |rs| && forall i :: 0 <= i < |parts| ==> Reads(p, parts[i], rs[i])
    ensures TakeMany(p, Concat(parts) + rest, |parts|)
         == if AllOf(rs).Some? then Some((AllOf(rs).value, rest)) else None
    decreases |parts|
  {
    if parts == [] {
      assert Concat(parts) + rest == rest;
    } else {
      var tail := Concat(parts[1..]) + rest;
      assert Concat(parts) + rest == parts[0] + tail;
      assert Reads(p, parts[0], rs[0]);
      TakeManyRoundTrip(p, parts[1..], rs[1..], rest);
    }
  }

  /** One more element at the end of a run that has succeeded so far. */
  lemma {:induction false} TakeManyStep<T>(p: Bytes -> Option<(T, Bytes)>, b: Bytes, n: nat, vs: seq<T>, rest: Bytes)
    requires TakeMany(p, b, n) == Some((vs, rest))
    ensures TakeMany(p, b, n + 1) == if p(rest).None? then None else Some((vs + [p(rest).value.0], p(rest).value.1))
    decreases n
  {
    if n == 0 {
      if p(rest).Some? {
        assert [p(rest).value.0] + [] == [] + [p(rest).value.0];
      }
    } else {
      var (v, b1) := p(b).value;
      var more := TakeMany(p, b1, n - 1).value.0;
      TakeManyStep(p, b1, n - 1, more, rest);
      if p(rest).Some? {
        assert vs + [p(rest).value.0] == [v] + (more + [p(rest).value.0]);
      }
    }
  }

  lemma {:induction false} TakeManyStops<T>(p: Bytes -> Option<(T, Bytes)>, b: Bytes, i: nat, n: nat)
    requires i <= n && TakeMany(p, b, i) == None
    ensures TakeMany(p, b, n) == None
    decreases n
  {
    if i > 0 && p(b).Some? {
      TakeManyStops(p, p(b).value.1, i - 1, n - 1);
    }
  }

  lemma {:induction false} ConcatStep(parts: seq<Bytes>, last: Bytes)
    ensures Concat(parts + [last]) == Concat(parts) + last
  {
    if parts == [] {
      assert [last][1..] == [];
      assert Concat(parts + [last]) == last + Concat([]);
    } else {
      ConcatStep(parts[1..], last);
      assert (parts + [last])[1..] == parts[1..] + [last];
    }
  }

  lemma {:induction false} AllOfValues<T>(rs: seq<Option<T>>, vs: seq<T>)
    requires |rs| == |vs|
    ensures AllOf(rs) == Some(vs) <==> forall i :: 0 <= i < |rs| ==> rs[i] == Some(vs[i])
  {
    if rs != [] {
      AllOfValues(rs[1..], vs[1..]);
      assert vs == [vs[0]] + vs[1..];
      if AllOf(rs).Some? {
        assert AllOf(rs).value[1..] == AllOf(rs[1..]).value;
      }
      assert forall i :: 1 <= i < |rs| ==> rs[i] == rs[1..][i - 1] && vs[i] == vs[1..][i - 1];
    }
  }

  // ---------------------------------------------------------------- the reader and the buffer

  class ByteReader {
    const buf: Bytes
    var pos: nat

    ghost predicate Valid()
      reads this
    {
      pos <= |buf|
    }

    ghost function Rest(): Bytes
      requires Valid()
      reads this
    {
      buf[pos..]
    }

    constructor (buf: Bytes, pos: nat)
      requires pos <= |buf|
      ensures Valid() && this.buf == buf && this.pos == pos
    {
      this.buf, this.pos := buf, pos;
    }

    /** A read either fails, or returns what the front of the remaining bytes spells and moves past it. */
    method ReadByte() returns (r: Option<byte>)
      requires Valid()
      modifies this
      ensures Valid()
      ensures match TakeByte(old(Rest())) case None => r == None case Some((v, rest)) => r == Some(v) && Rest() == rest
    {
      if pos >= |buf| {
        return None;
      }
      r := Some(buf[pos]);
      pos := pos + 1;
    }

    method ReadBytes(n: int) returns (r: Option<Bytes>)
      requires Valid()
      modifies this
      ensures Valid()
      ensures match TakeBytes(old(Rest()), n) case None => r == None && pos == old(pos)
              case Some((v, rest)) => r == Some(v) && Rest() == rest
    {
      if n < 0 || pos + n > |buf| {
        return None;
      }
      assert buf[pos..][..n] == buf[pos..pos + n] && buf[pos..][n..] == buf[pos + n..];
      r := Some(buf[pos..pos + n]);
      pos := pos + n;
    }

    method ReadUint32() returns (r: Option<uint32>)
      requires Valid()
      modifies this
      ensures Valid()
      ensures match TakeUint32(old(Rest())) case None => r == None
              case Some((v, rest)) => r == Some(v) && Rest() == rest
    {
      var b := ReadBytes(4);
      if b.None? {
        return None;
      }
      Widths();
      r := Some(FromLE(b.value));
    }

    method ReadInt64() returns (r: Option<int64>)
      requires Valid()
      modifies this
      ensures Valid()
      ensures match TakeInt64(old(Rest())) case None => r == None case Some((v, rest)) => r == Some(v) && Rest() == rest
    {
      var b := ReadBytes(8);
      if b.None? {
        return None;
      }
      Widths();
      r := Some(ToSigned(FromLE(b.value)));
    }

    method ReadVarInt() returns (r: Option<uint64>)
      requires Valid()
      modifies this
      ensures Valid()
      ensures match TakeVarInt(old(Rest())) case None => r == None
              case Some((v, rest)) => r == Some(v) && Rest() == rest
    {
      var first := ReadByte();
      if first.None? {
        return None;
      }
      ghost var all := old(Rest());
      var n := ExtraBytes(first.value);
      if n == 0 {
        return first;
      }
      assert |all| >= 1 + n ==> all[1..][..n] == all[1..1 + n] && all[1..][n..] == all[1 + n..];
      var b := ReadBytes(n);
      if b.None? {
        return None;
      }
      Widths();
      r := Some(FromLE(b.value));
    }

    method ReadVarBytes() returns (r: Option<Bytes>)
      requires Valid()
      modifies this
      ensures Valid()
      ensures match TakeVarBytes(old(Rest())) case None => r == None
              case Some((v, rest)) => r == Some(v) && Rest() == rest
    {
      var n := ReadVarInt();
      if n.None? {
        return None;
      }
      r := ReadBytes(ToSigned(n.value));
    }
  }

  class Buffer {
    var data: Bytes

    constructor ()
      ensures data == []
    {
      data := [];
    }

    method Write(b: Bytes)
      modifies this
      ensures data == old(data) + b
    {
      data := data + b;
    }

    method PutVarInt(n: uint64)
      modifies this
      ensures data == old(data) + VarInt(n)
    {
      if n < 0xfd {
        Write([n]);
      } else if n <= 0xffff {
        Write([0xfd]);
        Write(LE(n, 2));
      } else if n <= 0xffff_ffff {
        Write([0xfe]);
        Write(LE(n, 4));
      } else {
        Write([0xff]);
        Write(LE(n, 8));
      }
    }

    method PutVarBytes(b: Bytes)
      requires |b| < 0x8000_0000_0000_0000
      modifies this
      ensures data == old(data) + VarBytes(b)
    {
      PutVarInt(|b|);
      Write(b);
    }
  }
}
