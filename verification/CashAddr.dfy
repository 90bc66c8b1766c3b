/** CashAddr address strings (encodeCashAddr, internal/bch/cashaddr.go), proved against a reference decoder. */
module CashAddr {
  import opened Bytes
  import opened Regrouping
  import opened Checksum

  const CHARSET: string := "qpzry9x8gf2tvdw0s3jn54khce6mua7l"

  function Prefix(network: string): string {
    if network == "mainnet" then "bitcoincash" else "bchtest"
  }

  /** The low five bits of each prefix character. */
  function PrefixSymbols(prefix: string): (r: Bytes)
    ensures |r| == |prefix|
  {
    seq(|prefix|, i requires 0 <= i < |prefix| => prefix[i] as int % 32)
  }

  function Chars(symbols: Bytes): (r: string)
    requires Fits(symbols, 5)
    ensures |r| == |symbols|
  {
    assert Pow2(5) == 32;
    seq(|symbols|, i requires 0 <= i < |symbols| => CHARSET[symbols[i]])
  }

  /** What the checksum covers before its own symbols. */
  function Covered(prefix: string, data: Bytes): Bytes {
    PrefixSymbols(prefix) + [0] + data
  }

  /** The version byte and the hash, cut into five-bit symbols. */
  function Payload(addrType: byte, hash: Bytes): (r: Bytes)
    ensures Fits(r, 5)
  {
    Regroup([addrType * 8 % 256] + hash, 8, 5, true)
  }

  /** The characters after the colon. */
  function Rest(prefix: string, data: Bytes): string
    requires Fits(data, 5)
  {
    ChecksumVerifies(Covered(prefix, data));
    Chars(data) + Chars(ChecksumSymbols(Covered(prefix, data)))
  }

  function Address(network: string, addrType: byte, hash: Bytes): string {
    Prefix(network) + ":" + Rest(Prefix(network), Payload(addrType, hash))
  }

  /** Symbol `i` of the checksum, as the code takes it from the number: `(mod >> 5*(7-i)) & 0x1f`. */
  lemma ShiftedSymbol(mod: Word, i: nat)
    requires i < 8
    ensures LowByte(Shr(FromBits(mod), 5 * (7 - i)), 5) == ByteOf(mod[5 * i..5 * i + 5])
  {
    var v, k, n := FromBits(mod), 5 * (7 - i), 5 * i;
    ToFromBits(mod);
    ToBitsSplit(v, n + 5, k);
    assert ToBits(Shr(v, k), n + 5) == mod[..n + 5];
    ToBitsSplit(Shr(v, k), n, 5);
    assert ToBits(Shr(v, k), 5) == mod[n..n + 5];
    LowBitsSpelled(Shr(v, k), 5);
  }

  lemma {:induction false} GroupAt(bits: seq<bool>, i: nat)
    requires 5 * i + 5 <= |bits|
    ensures i < |Groups(bits, 5, false)| && Groups(bits, 5, false)[i] == ByteOf(bits[5 * i..5 * i + 5])
    decreases i
  {
    if i > 0 {
      GroupAt(bits[5..], i - 1);
      assert bits[5..][5 * (i - 1)..5 * (i - 1) + 5] == bits[5 * i..5 * i + 5];
    }
  }

  lemma CutSymbol(mod: Word, i: nat)
    requires i < 8
    ensures |Groups(mod, 5, false)| == 8
    ensures Groups(mod, 5, false)[i] == LowByte(Shr(FromBits(mod), 5 * (7 - i)), 5)
  {
    ExactGroups(mod);
    GroupAt(mod, i);
    ShiftedSymbol(mod, i);
  }

  method CutSymbols(mod: Word) returns (checksum: Bytes)
    ensures checksum == Groups(mod, 5, false)
  {
    checksum := [];
    ghost var want := Groups(mod, 5, false);
    CutSymbol(mod, 0);
    for i := 0 to 8
      invariant checksum == want[..i]
    {
      CutSymbol(mod, i);
      checksum := checksum + [LowByte(Shr(FromBits(mod), 5 * (7 - i)), 5)];
    }
  }

  method MaskPrefix(prefix: string) returns (symbols: Bytes)
    ensures symbols == PrefixSymbols(prefix)
  {
    symbols := [];
    for i := 0 to |prefix|
      invariant symbols == PrefixSymbols(prefix)[..i]
    {
      symbols := symbols + [prefix[i] as int % 32];
    }
  }

  method AppendChars(head: string, symbols: Bytes) returns (out: string)
    requires Fits(symbols, 5)
    ensures out == head + Chars(symbols)
  {
    assert Pow2(5) == 32;
    out := head;
    for i := 0 to |symbols|
      invariant out == head + Chars(symbols)[..i]
    {
      out := out + [CHARSET[symbols[i]]];
    }
  }

  method EncodeCashAddr(network: string, addrType: byte, hash160: Bytes) returns (out: string)
    ensures out == Address(network, addrType, hash160)
  {
    hide Polymod;
    var prefix := Prefix(network);
    var versionByte: byte := addrType * 8 % 256;
    assert Fits([versionByte] + hash160, 8) by { assert Pow2(8) == 256; }
    var data := ConvertBits([versionByte] + hash160, 8, 5, true);
    var symbols := MaskPrefix(prefix);
    var checksumInput := symbols + [0] + data + TEMPLATE;
    var mod := PolymodLoop(checksumInput);
    var checksum := CutSymbols(mod);
    ChecksumVerifies(Covered(prefix, data));
    var head := AppendChars(prefix + ":", data);
    out := AppendChars(head, checksum);
    assert out == prefix + ":" + Rest(prefix, data);
  }

  // ---------------------------------------------------------------- reference decoder

  function Position(c: char, i: nat): Option<byte>
    requires i <= 32
    decreases 32 - i
  {
    if i == 32 then None else if CHARSET[i] == c then Some(i) else Position(c, i + 1)
  }

  function Symbols(s: string): Option<Bytes> {
    if s == "" then Some([])
    else
      match (Position(s[0], 0), Symbols(s[1..]))
      case (Some(d), Some(ds)) => Some([d] + ds)
      case _ => None
  }

  /** An address is read back as its type and 160-bit hash, or rejected. */
  function DecodeCashAddr(prefix: string, addr: string): Option<(byte, Bytes)> {
    if !(prefix + ":" <= addr) then None
    else DecodeRest(prefix, addr[|prefix| + 1..])
  }

  function DecodeRest(prefix: string, rest: string): Option<(byte, Bytes)> {
    match Symbols(rest)
    case None => None
    case Some(symbols) =>
      if |symbols| < 8 || Polymod(Covered(prefix, symbols)) != ZERO then None
      else DecodePayload(Regroup(symbols[..|symbols| - 8], 5, 8, false))
  }

  function DecodePayload(payload: Bytes): Option<(byte, Bytes)> {
    if |payload| != 21 || payload[0] >= 128 || payload[0] % 8 != 0 then None
    else Some((payload[0] / 8, payload[1..]))
  }

  lemma CharsetDistinct(i: nat, j: nat)
    requires i < j < 32
    ensures CHARSET[i] != CHARSET[j]
  {
  }

  lemma {:induction false} PositionOfChar(d: nat, i: nat)
    requires i <= d < 32
    ensures Position(CHARSET[d], i) == Some(d)
    decreases d - i
  {
    if i < d {
      CharsetDistinct(i, d);
      PositionOfChar(d, i + 1);
    }
  }

  lemma {:induction false} PositionInverse(c: char, i: nat)
    requires i <= 32 && Position(c, i).Some?
    ensures Position(c, i).value < 32 && CHARSET[Position(c, i).value] == c
    decreases 32 - i
  {
    if CHARSET[i] != c {
      PositionInverse(c, i + 1);
    }
  }

  lemma {:induction false} SymbolsOfChars(symbols: Bytes)
    requires Fits(symbols, 5)
    ensures Symbols(Chars(symbols)) == Some(symbols)
  {
    if symbols == [] {
      assert Chars(symbols) == "";
    } else {
      assert Chars(symbols)[1..] == Chars(symbols[1..]);
      SymbolsOfChars(symbols[1..]);
      assert symbols[0] < 32 by { assert Pow2(5) == 32; }
      PositionOfChar(symbols[0], 0);
      assert [symbols[0]] + symbols[1..] == symbols;
    }
  }

  lemma {:induction false} CharsOfSymbols(s: string)
    requires Symbols(s).Some?
    ensures Fits(Symbols(s).value, 5) && Chars(Symbols(s).value) == s
  {
    assert Pow2(5) == 32;
    if s != "" {
      CharsOfSymbols(s[1..]);
      PositionInverse(s[0], 0);
      var d, ds := Position(s[0], 0).value, Symbols(s[1..]).value;
      assert Symbols(s).value == [d] + ds;
      assert Chars([d] + ds)[1..] == Chars(ds);
    }
  }

  /** What acceptance means for the part after the colon. */
  lemma DecodeOf(prefix: string, rest: string)
    ensures DecodeCashAddr(prefix, prefix + ":" + rest) == DecodeRest(prefix, rest)
  {
    assert (prefix + ":" + rest)[..|prefix| + 1] == prefix + ":";
    assert (prefix + ":" + rest)[|prefix| + 1..] == rest;
  }

  lemma PayloadRoundTrip(addrType: byte, hash: Bytes)
    requires addrType < 16
    ensures Regroup(Payload(addrType, hash), 5, 8, false) == [addrType * 8] + hash
  {
    hide Regroup;
    assert Fits([addrType * 8 % 256] + hash, 8) by { assert Pow2(8) == 256; }
    RegroupRoundTrip([addrType * 8 % 256] + hash, 8, 5);
  }

  /** Every encoded address decodes to exactly the type and hash it was made from. */
  lemma AddressRoundTrip(network: string, addrType: byte, hash: Bytes)
    requires |hash| == 20 && addrType < 16
    ensures DecodeCashAddr(Prefix(network), Address(network, addrType, hash)) == Some((addrType, hash))
  {
    var prefix, data := Prefix(network), Payload(addrType, hash);
    DecodeOf(prefix, Rest(prefix, data));
    RestDecodes(prefix, data);
    PayloadDecodes(addrType, hash);
  }

  lemma CharsAppend(a: Bytes, b: Bytes)
    requires Fits(a, 5) && Fits(b, 5)
    ensures Fits(a + b, 5) && Chars(a + b) == Chars(a) + Chars(b)
  {
  }

  lemma PayloadDecodes(addrType: byte, hash: Bytes)
    requires |hash| == 20 && addrType < 16
    ensures DecodePayload(Regroup(Payload(addrType, hash), 5, 8, false)) == Some((addrType, hash))
  {
    hide Regroup, Payload;
    PayloadRoundTrip(addrType, hash);
  }

  lemma CoveredAppend(prefix: string, a: Bytes, b: Bytes)
    ensures Covered(prefix, a + b) == Covered(prefix, a) + b
  {
  }

  lemma RestDecodes(prefix: string, data: Bytes)
    requires Fits(data, 5)
    ensures DecodeRest(prefix, Rest(prefix, data)) == DecodePayload(Regroup(data, 5, 8, false))
  {
    var body := Covered(prefix, data);
    ChecksumVerifies(body);
    var sum := ChecksumSymbols(body);
    CharsAppend(data, sum);
    SymbolsOfChars(data + sum);
    CoveredAppend(prefix, data, sum);
    assert (data + sum)[..|data + sum| - 8] == data;
  }

  /** Different hashes or types give different addresses. */
  lemma AddressInjective(network: string, t1: byte, h1: Bytes, t2: byte, h2: Bytes)
    requires |h1| == |h2| == 20 && t1 < 16 && t2 < 16
    ensures Address(network, t1, h1) == Address(network, t2, h2) ==> t1 == t2 && h1 == h2
  {
    AddressRoundTrip(network, t1, h1);
    AddressRoundTrip(network, t2, h2);
  }

  lemma {:induction false} SymbolsAppend(a: string, b: string)
    requires Symbols(a + b).Some?
    ensures Symbols(a).Some? && Symbols(b).Some? && Symbols(a + b).value == Symbols(a).value + Symbols(b).value
    ensures |Symbols(a).value| == |a|
  {
    if a == "" {
      assert a + b == b;
    } else {
      assert (a + b)[1..] == a[1..] + b;
      SymbolsAppend(a[1..], b);
    }
  }

  /** Replacing up to eight consecutive characters of an accepted address by anything else makes it rejected. */
  lemma BurstRejected(prefix: string, pre: string, good: string, bad: string, post: string)
    requires |good| == |bad| <= 8 && good != bad
    requires DecodeCashAddr(prefix, prefix + ":" + (pre + (good + post))).Some?
    ensures DecodeCashAddr(prefix, prefix + ":" + (pre + (bad + post))).None?
  {
    DecodeOf(prefix, pre + (good + post));
    DecodeOf(prefix, pre + (bad + post));
    if DecodeRest(prefix, pre + (bad + post)).Some? {
      BothAccepted(prefix, pre, good, bad, post);
    }
  }

  lemma BothAccepted(prefix: string, pre: string, good: string, bad: string, post: string)
    requires |good| == |bad| <= 8
    requires DecodeRest(prefix, pre + (good + post)).Some? && DecodeRest(prefix, pre + (bad + post)).Some?
    ensures good == bad
  {
    SymbolParts(pre, good, post);
    SymbolParts(pre, bad, post);
    VerifiedAlike(prefix, Symbols(pre).value, Symbols(good).value, Symbols(bad).value, Symbols(post).value);
  }

  lemma VerifiedAlike(prefix: string, p: Bytes, g: Bytes, x: Bytes, q: Bytes)
    requires |g| == |x| <= 8 && Fits(g, 5) && Fits(x, 5)
    requires Polymod(Covered(prefix, p + (g + q))) == ZERO == Polymod(Covered(prefix, p + (x + q)))
    ensures g == x
  {
    var head := Covered(prefix, p);
    CoveredAppend(prefix, p, g + q);
    CoveredAppend(prefix, p, x + q);
    assert head + (g + q) == head + g + q && head + (x + q) == head + x + q;
    if g != x {
      BurstDetected(head, g, x, q);
    }
  }

  lemma SymbolParts(pre: string, mid: string, post: string)
    requires Symbols(pre + (mid + post)).Some?
    ensures Symbols(pre).Some? && Symbols(mid).Some? && Symbols(post).Some?
    ensures Symbols(pre + (mid + post)).value == Symbols(pre).value + (Symbols(mid).value + Symbols(post).value)
    ensures |Symbols(mid).value| == |mid| && Fits(Symbols(mid).value, 5) && Chars(Symbols(mid).value) == mid
  {
    SymbolsAppend(pre, mid + post);
    SymbolsAppend(mid, post);
    CharsOfSymbols(mid);
  }
}
