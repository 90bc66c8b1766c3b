/** Address strings as the CashAddr specification describes them (section "Checksum" and its examples), apart from the
    code that builds them (internal/bch/cashaddr.go). */
module AddressLaws {
  import opened Bytes
  import opened Regrouping
  import opened Checksum
  import opened CashAddr
  import opened Remainder

  lemma CoefficientsJoin(a: Bytes, b: Bytes)
    ensures Coefficients(a + b) == Coefficients(a) + Coefficients(b)
  {
    hide ElemOf;
  }

  lemma BodyFits(prefix: string, data: Bytes)
    requires Fits(data, 5)
    ensures Fits(Covered(prefix, data), 5)
  {
    assert Pow2(5) == 32;
  }

  /** The characters after the colon are those of the data and of its checksum. */
  lemma RestSymbols(prefix: string, data: Bytes)
    requires Fits(data, 5)
    ensures Symbols(Rest(prefix, data)) == Some(data + ChecksumSymbols(Covered(prefix, data)))
  {
    hide Symbols, ChecksumSymbols, Polymod, Chars;
    var sum := ChecksumSymbols(Covered(prefix, data));
    ChecksumVerifies(Covered(prefix, data));
    CharsAppend(data, sum);
    SymbolsOfChars(data + sum);
  }

  /** The coefficients that an address spells: a one, the low five bits of each character of the prefix, a zero for the
      colon, and the symbols after it. */
  function Spelled(prefix: string, symbols: Bytes): seq<Elem> {
    Nulls(7) + [One] + seq(|prefix|, i requires 0 <= i < |prefix| => ElemOf(prefix[i] as int % 32)) + [Zero]
      + Coefficients(symbols)
  }

  lemma SpelledCovers(prefix: string, data: Bytes, sum: Bytes)
    ensures Nulls(7) + [One] + Coefficients(Covered(prefix, data) + sum) == Spelled(prefix, data + sum)
  {
    var head := PrefixSymbols(prefix);
    CoveredAppend(prefix, data, sum);
    CoefficientsJoin(head + [0], data + sum);
    CoefficientsJoin(head, [0]);
    assert Coefficients([0]) == [Zero];
    assert Coefficients(head) == seq(|prefix|, i requires 0 <= i < |prefix| => ElemOf(prefix[i] as int % 32));
  }

  lemma RestIsCodeword(prefix: string, data: Bytes)
    requires Fits(data, 5)
    ensures var symbols := Symbols(Rest(prefix, data));
      symbols.Some? && IsRemainder(Spelled(prefix, symbols.value), Nulls(7) + [One])
  {
    hide IsRemainder, Symbols, ChecksumSymbols, Rest, Spelled, Coefficients;
    RestSymbols(prefix, data);
    BodyFits(prefix, data);
    CodewordRemainder(Covered(prefix, data));
    SpelledCovers(prefix, data, ChecksumSymbols(Covered(prefix, data)));
  }

  /** Every address spells a polynomial that leaves the remainder one. */
  lemma AddressIsCodeword(network: string, addrType: byte, hash: Bytes)
    ensures var prefix := if network == "mainnet" then "bitcoincash" else "bchtest";
      var a := Address(network, addrType, hash);
      && prefix + ":" <= a
      && var symbols := Symbols(a[|prefix| + 1..]);
         symbols.Some? && IsRemainder(Spelled(prefix, symbols.value), Nulls(7) + [One])
  {
    hide IsRemainder, Symbols, Spelled, Rest, Payload;
    var prefix, data := Prefix(network), Payload(addrType, hash);
    var rest := Rest(prefix, data);
    RestIsCodeword(prefix, data);
    assert Address(network, addrType, hash) == prefix + ":" + rest;
    assert (prefix + ":" + rest)[|prefix| + 1..] == rest;
  }

  // ---------------------------------------------------------------- what comes after the colon

  lemma {:induction false} GroupCount(bits: seq<bool>)
    ensures |Groups(bits, 5, true)| == (|bits| + 4) / 5
    decreases |bits|
  {
    if |bits| >= 5 {
      GroupCount(bits[5..]);
    }
  }

  lemma {:induction false} FlattenLength(data: Bytes)
    ensures |Flatten(data, 8)| == |data| * 8
  {
    if data != [] {
      FlattenLength(data[1..]);
    }
  }

  lemma TopFive(t: nat)
    ensures ToBits(t * 8, 8)[..5] == ToBits(t, 5)
  {
    assert t * 8 / 2 == t * 4 && t * 4 / 2 == t * 2 && t * 2 / 2 == t;
    assert ToBits(t * 8, 8) == ToBits(t * 4, 7) + [false];
    assert ToBits(t * 4, 7) == ToBits(t * 2, 6) + [false];
    assert ToBits(t * 2, 6) == ToBits(t, 5) + [false];
  }

  /** The first symbol of the payload is the type, and a 160-bit hash takes 34. */
  lemma PayloadShape(addrType: byte, hash: Bytes)
    requires addrType < 16 && |hash| == 20
    ensures |Payload(addrType, hash)| == 34 && Payload(addrType, hash)[0] == addrType
  {
    hide ToBits;
    var bytes := [addrType * 8] + hash;
    FlattenLength(bytes);
    GroupCount(Flatten(bytes, 8));
    assert bytes[1..] == hash;
    assert Flatten(bytes, 8) == ToBits(addrType * 8, 8) + Flatten(hash, 8);
    TopFive(addrType);
    assert Flatten(bytes, 8)[..5] == ToBits(addrType, 5);
    assert Pow2(5) == 32;
    FromToBits(addrType, 5);
  }

  /** A public key hash address begins with q, a script hash address with p, and both have 42 characters after the
      colon. */
  lemma AddressShape(network: string, hash: Bytes)
    requires |hash| == 20
    ensures var prefix := if network == "mainnet" then "bitcoincash" else "bchtest";
      && prefix + ":q" <= Address(network, 0, hash) && |Address(network, 0, hash)| == |prefix| + 43
      && prefix + ":p" <= Address(network, 1, hash) && |Address(network, 1, hash)| == |prefix| + 43
  {
    hide Payload, Polymod, ChecksumSymbols;
    PayloadShape(0, hash);
    PayloadShape(1, hash);
    ChecksumVerifies(Covered(Prefix(network), Payload(0, hash)));
    ChecksumVerifies(Covered(Prefix(network), Payload(1, hash)));
  }

  // ---------------------------------------------------------------- the specification's examples

  /** The number that groups of `n` bits spell. */
  function Number(ds: Bytes, n: nat): nat {
    if ds == [] then 0 else Pow2(n) * Number(ds[..|ds| - 1], n) + ds[|ds| - 1]
  }

  lemma {:induction false} FlattenIsNumber(ds: Bytes, n: nat)
    requires forall i :: 0 <= i < |ds| ==> ds[i] < Pow2(n)
    ensures Flatten(ds, n) == ToBits(Number(ds, n), |Flatten(ds, n)|)
  {
    hide ToBits, Pow2;
    if ds == [] {
      NoBits();
    } else {
      var init, d := ds[..|ds| - 1], ds[|ds| - 1];
      FlattenIsNumber(init, n);
      FlattenAppend(init, [d], n);
      assert init + [d] == ds && [d][1..] == [];
      assert Flatten([d], n) == ToBits(d, n);
      ToBitsJoin(Number(init, n), d, |Flatten(init, n)|, n);
    }
  }

  lemma {:induction false} SymbolsLength(ds: Bytes)
    ensures |Flatten(ds, 5)| == 5 * |ds|
  {
    if ds != [] {
      SymbolsLength(ds[1..]);
    }
  }

  lemma NoBits()
    ensures ToBits(0, 0) == []
  {
  }

  lemma FiveBytes(b: Bytes)
    requires |b| == 5
    ensures Number(b, 8) == 0x1_0000_0000 * (b[0] as int) + 0x100_0000 * (b[1] as int) + 0x1_0000 * (b[2] as int)
                          + 0x100 * (b[3] as int) + b[4]
  {
    assert Pow2(8) == 256;
    forall n | 0 < n <= 5 ensures Number(b[..n], 8) == 256 * Number(b[..n - 1], 8) + b[n - 1] {
      assert b[..n][..n - 1] == b[..n - 1];
    }
    assert b[..5] == b && Number(b[..0], 8) == 0;
  }

  lemma EightSymbols(s: Bytes)
    requires |s| == 8
    ensures Number(s, 5) == 0x8_0000_0000 * (s[0] as int) + 0x4000_0000 * (s[1] as int) + 0x200_0000 * (s[2] as int)
                          + 0x10_0000 * (s[3] as int) + 0x8000 * (s[4] as int) + 0x400 * (s[5] as int)
                          + 0x20 * (s[6] as int) + s[7]
  {
    assert Pow2(5) == 32;
    forall n | 0 < n <= 8 ensures Number(s[..n], 5) == 32 * Number(s[..n - 1], 5) + s[n - 1] {
      assert s[..n][..n - 1] == s[..n - 1];
    }
    assert s[..8] == s && Number(s[..0], 5) == 0;
    assert Number(s[..4], 5) == 0x8000 * (s[0] as int) + 0x400 * (s[1] as int) + 0x20 * (s[2] as int) + s[3];
  }

  /** Five bytes and eight symbols that spell the same number are the same bits. */
  ghost predicate SameBlock(b: Bytes, s: Bytes) {
    && |b| == 5 && |s| == 8 && (forall i :: 0 <= i < 8 ==> s[i] < 32)
    && 0x1_0000_0000 * (b[0] as int) + 0x100_0000 * (b[1] as int) + 0x1_0000 * (b[2] as int)
       + 0x100 * (b[3] as int) + b[4]
    == 0x8_0000_0000 * (s[0] as int) + 0x4000_0000 * (s[1] as int) + 0x200_0000 * (s[2] as int)
       + 0x10_0000 * (s[3] as int) + 0x8000 * (s[4] as int) + 0x400 * (s[5] as int) + 0x20 * (s[6] as int) + s[7]
  }

  lemma BlockBits(b: Bytes, s: Bytes)
    requires SameBlock(b, s)
    ensures Flatten(b, 8) == Flatten(s, 5)
  {
    hide Flatten, ToBits, Number;
    assert Pow2(8) == 256 && Pow2(5) == 32;
    FlattenIsNumber(b, 8);
    FlattenLength(b);
    FlattenIsNumber(s, 5);
    SymbolsLength(s);
    FiveBytes(b);
    EightSymbols(s);
  }

  /** Twenty bytes, block by block, and one more, whose last three bits take a symbol of their own. */
  lemma BlocksRegroup(b1: Bytes, s1: Bytes, b2: Bytes, s2: Bytes, b3: Bytes, s3: Bytes, b4: Bytes, s4: Bytes,
                      last: byte)
    requires SameBlock(b1, s1) && SameBlock(b2, s2) && SameBlock(b3, s3) && SameBlock(b4, s4)
    ensures Regroup(b1 + b2 + b3 + b4 + [last], 8, 5, true)
         == s1 + s2 + s3 + s4 + [last / 8, last % 8 * 4]
  {
    hide Flatten, ToBits, Groups;
    BlockBits(b1, s1);
    BlockBits(b2, s2);
    BlockBits(b3, s3);
    BlockBits(b4, s4);
    var s := s1 + s2 + s3 + s4;
    FlattenAppend(b1, b2, 8);
    FlattenAppend(b1 + b2, b3, 8);
    FlattenAppend(b1 + b2 + b3, b4, 8);
    FlattenAppend(b1 + b2 + b3 + b4, [last], 8);
    FlattenAppend(s1, s2, 5);
    FlattenAppend(s1 + s2, s3, 5);
    FlattenAppend(s1 + s2 + s3, s4, 5);
    assert Fits(s, 5) by { assert Pow2(5) == 32; }
    LastByte(last);
    GroupsOfFlatten(s, Flatten([last], 8), 5, true);
  }

  lemma LastByte(last: byte)
    ensures Groups(Flatten([last], 8), 5, true) == [last / 8, last % 8 * 4]
  {
    hide ToBits, FromBits;
    var bits := ToBits(last, 8);
    assert [last][1..] == [] && Flatten([last], 8) == bits;
    LastBits(last);
    NoMoreGroups();
    assert Groups(bits, 5, true) == [ByteOf(bits[..5])] + Groups(bits[5..], 5, true);
    assert Groups(bits[5..], 5, true) == [ByteOf(bits[5..] + Zeros(2))];
  }

  lemma NoMoreGroups()
    ensures Groups([], 5, true) == []
  {
  }

  lemma LastBits(last: byte)
    ensures var bits := ToBits(last, 8);
      FromBits(bits[..5]) == last / 8 && FromBits(bits[5..] + Zeros(2)) == last % 8 * 4
  {
    hide ToBits, FromBits;
    var hi, lo := last / 8, last % 8;
    Powers();
    ToBitsJoin(hi, lo, 5, 3);
    assert last == 8 * hi + lo;
    var bits := ToBits(last, 8);
    assert bits[..5] == ToBits(hi, 5) && bits[5..] == ToBits(lo, 3);
    FromToBits(hi, 5);
    ToBitsJoin(lo, 0, 3, 2);
    ToBitsZero(2);
    FromToBits(lo * 4, 5);
  }

  lemma Powers()
    ensures Pow2(2) == 4 && Pow2(3) == 8 && Pow2(5) == 32 && Pow2(8) == 256
  {
  }

  /** Five bytes, the eight symbols that are the same bits, and their characters. */
  ghost predicate Block(b: Bytes, s: Bytes, text: string) {
    SameBlock(b, s) && |text| == 8 && forall i :: 0 <= i < 8 ==> CHARSET[s[i]] == text[i]
  }

  lemma BlockChars(b: Bytes, s: Bytes, text: string)
    requires Block(b, s, text)
    ensures SameBlock(b, s) && Fits(s, 5) && Chars(s) == text
  {
    assert Pow2(5) == 32;
  }

  lemma JoinedChars(s1: Bytes, s2: Bytes, s3: Bytes, s4: Bytes, s5: Bytes)
    requires Fits(s1, 5) && Fits(s2, 5) && Fits(s3, 5) && Fits(s4, 5) && Fits(s5, 5)
    ensures Fits(s1 + s2 + s3 + s4 + s5, 5)
    ensures Chars(s1 + s2 + s3 + s4 + s5) == Chars(s1) + Chars(s2) + Chars(s3) + Chars(s4) + Chars(s5)
  {
    hide Chars, Fits;
    CharsAppend(s1, s2);
    CharsAppend(s1 + s2, s3);
    CharsAppend(s1 + s2 + s3, s4);
    CharsAppend(s1 + s2 + s3 + s4, s5);
  }

  /** The payload of a public key hash address, from four blocks and a last byte. */
  lemma PayloadChars(b1: Bytes, s1: Bytes, t1: string, b2: Bytes, s2: Bytes, t2: string, b3: Bytes, s3: Bytes,
                     t3: string, b4: Bytes, s4: Bytes, t4: string, last: byte, hash: Bytes)
    requires Block(b1, s1, t1) && Block(b2, s2, t2) && Block(b3, s3, t3) && Block(b4, s4, t4)
    requires [0] + hash == b1 + b2 + b3 + b4 + [last]
    ensures Chars(Payload(0, hash)) == t1 + t2 + t3 + t4 + [CHARSET[last / 8], CHARSET[last % 8 * 4]]
  {
    hide Regroup, Block, SameBlock, Chars, Fits;
    BlockChars(b1, s1, t1);
    BlockChars(b2, s2, t2);
    BlockChars(b3, s3, t3);
    BlockChars(b4, s4, t4);
    TwoChars(last);
    var s5: Bytes := [last / 8, last % 8 * 4];
    BlocksRegroup(b1, s1, b2, s2, b3, s3, b4, s4, last);
    JoinedChars(s1, s2, s3, s4, s5);
    ZeroVersion(hash);
  }

  lemma ZeroVersion(hash: Bytes)
    ensures Payload(0, hash) == Regroup([0] + hash, 8, 5, true)
  {
    hide Regroup;
  }

  lemma TwoChars(last: byte)
    ensures Fits([last / 8, last % 8 * 4], 5)
    ensures Chars([last / 8, last % 8 * 4]) == [CHARSET[last / 8], CHARSET[last % 8 * 4]]
  {
    assert Pow2(5) == 32;
  }

  lemma FirstBlock1()
    ensures Block([0x00, 0x76, 0xa0, 0x40, 0x53], [0, 1, 27, 10, 0, 16, 2, 19], "qpm2qszn")
  {
  }

  lemma FirstBlock2()
    ensures Block([0xbd, 0xa0, 0xa8, 0x8b, 0xda], [23, 22, 16, 10, 17, 2, 30, 26], "hks23z76")
  {
  }

  lemma FirstBlock3()
    ensures Block([0x51, 0x77, 0xb8, 0x6a, 0x15], [10, 5, 27, 27, 16, 26, 16, 21], "29mms6s4")
  {
  }

  lemma FirstBlock4()
    ensures Block([0xc3, 0xb2, 0x9f, 0x55, 0x98], [24, 14, 25, 9, 30, 21, 12, 24], "cwef74vc")
  {
  }

  /** Three of the specification's test vectors, up to the checksum. The first is the hash
      76A04053BDA0A88BDA5177B86A15C3B29F559873. */
  lemma FirstExample(hash: Bytes)
    requires hash == [0x76, 0xa0, 0x40, 0x53] + [0xbd, 0xa0, 0xa8, 0x8b, 0xda] + [0x51, 0x77, 0xb8, 0x6a, 0x15]
                     + [0xc3, 0xb2, 0x9f, 0x55, 0x98] + [0x73]
    ensures Chars(Payload(0, hash)) == "qpm2qszn" + "hks23z76" + "29mms6s4" + "cwef74vc" + "wv"
  {
    hide Block, Payload, Chars;
    FirstBlock1();
    FirstBlock2();
    FirstBlock3();
    FirstBlock4();
    PayloadChars([0x00, 0x76, 0xa0, 0x40, 0x53], [0, 1, 27, 10, 0, 16, 2, 19], "qpm2qszn",
                 [0xbd, 0xa0, 0xa8, 0x8b, 0xda], [23, 22, 16, 10, 17, 2, 30, 26], "hks23z76",
                 [0x51, 0x77, 0xb8, 0x6a, 0x15], [10, 5, 27, 27, 16, 26, 16, 21], "29mms6s4",
                 [0xc3, 0xb2, 0x9f, 0x55, 0x98], [24, 14, 25, 9, 30, 21, 12, 24], "cwef74vc", 0x73, hash);
  }

  lemma SecondBlock1()
    ensures Block([0x00, 0x01, 0x1f, 0x28, 0xe4], [0, 0, 0, 17, 30, 10, 7, 4], "qqq3728y")
  {
  }

  lemma SecondBlock2()
    ensures Block([0x73, 0xc9, 0x5f, 0x40, 0x13], [14, 15, 4, 21, 30, 16, 0, 19], "w0y47sqn")
  {
  }

  lemma SecondBlock3()
    ensures Block([0xd7, 0xd5, 0x3e, 0xc5, 0xfb], [26, 31, 10, 19, 29, 17, 15, 27], "6l2na30m")
  {
  }

  lemma SecondBlock4()
    ensures Block([0xc3, 0xb4, 0x2d, 0xf8, 0xed], [24, 14, 26, 2, 27, 30, 7, 13], "cw6zm78d")
  {
  }

  /** The hash 011F28E473C95F4013D7D53EC5FBC3B42DF8ED10. */
  lemma SecondExample(hash: Bytes)
    requires hash == [0x01, 0x1f, 0x28, 0xe4] + [0x73, 0xc9, 0x5f, 0x40, 0x13] + [0xd7, 0xd5, 0x3e, 0xc5, 0xfb]
                     + [0xc3, 0xb4, 0x2d, 0xf8, 0xed] + [0x10]
    ensures Chars(Payload(0, hash)) == "qqq3728y" + "w0y47sqn" + "6l2na30m" + "cw6zm78d" + "zq"
  {
    hide Block, Payload, Chars;
    SecondBlock1();
    SecondBlock2();
    SecondBlock3();
    SecondBlock4();
    PayloadChars([0x00, 0x01, 0x1f, 0x28, 0xe4], [0, 0, 0, 17, 30, 10, 7, 4], "qqq3728y",
                 [0x73, 0xc9, 0x5f, 0x40, 0x13], [14, 15, 4, 21, 30, 16, 0, 19], "w0y47sqn",
                 [0xd7, 0xd5, 0x3e, 0xc5, 0xfb], [26, 31, 10, 19, 29, 17, 15, 27], "6l2na30m",
                 [0xc3, 0xb4, 0x2d, 0xf8, 0xed], [24, 14, 26, 2, 27, 30, 7, 13], "cw6zm78d", 0x10, hash);
  }

  lemma ThirdBlock1()
    ensures Block([0x00, 0xf5, 0xbf, 0x48, 0xb3], [0, 3, 26, 27, 30, 18, 5, 19], "qr6m7j9n")
  {
  }

  lemma ThirdBlock2()
    ensures Block([0x97, 0xda, 0xe7, 0x0b, 0xe8], [18, 31, 13, 14, 14, 2, 31, 8], "jldwwzlg")
  {
  }

  lemma ThirdBlock3()
    ensures Block([0x2b, 0x3c, 0xca, 0x47, 0x93], [5, 12, 30, 12, 20, 17, 28, 19], "9v7v53un")
  {
  }

  lemma ThirdBlock4()
    ensures Block([0xf8, 0xeb, 0x2b, 0x6c, 0xda], [31, 3, 21, 18, 22, 27, 6, 26], "lr4jkmx6")
  {
  }

  /** The hash F5BF48B397DAE70BE82B3CCA4793F8EB2B6CDAC9. */
  lemma ThirdExample(hash: Bytes)
    requires hash == [0xf5, 0xbf, 0x48, 0xb3] + [0x97, 0xda, 0xe7, 0x0b, 0xe8] + [0x2b, 0x3c, 0xca, 0x47, 0x93]
                     + [0xf8, 0xeb, 0x2b, 0x6c, 0xda] + [0xc9]
    ensures Chars(Payload(0, hash)) == "qr6m7j9n" + "jldwwzlg" + "9v7v53un" + "lr4jkmx6" + "ey"
  {
    hide Block, Payload, Chars;
    ThirdBlock1();
    ThirdBlock2();
    ThirdBlock3();
    ThirdBlock4();
    PayloadChars([0x00, 0xf5, 0xbf, 0x48, 0xb3], [0, 3, 26, 27, 30, 18, 5, 19], "qr6m7j9n",
                 [0x97, 0xda, 0xe7, 0x0b, 0xe8], [18, 31, 13, 14, 14, 2, 31, 8], "jldwwzlg",
                 [0x2b, 0x3c, 0xca, 0x47, 0x93], [5, 12, 30, 12, 20, 17, 28, 19], "9v7v53un",
                 [0xf8, 0xeb, 0x2b, 0x6c, 0xda], [31, 3, 21, 18, 22, 27, 6, 26], "lr4jkmx6", 0xc9, hash);
  }
}
