/** The CashAddr checksum (polymod, internal/bch/cashaddr.go). The 64-bit state never leaves its low 40 bits:
    the mask keeps 35 bits before the shift by five, a symbol has eight bits and every generator forty. A state
    is therefore the list of its 40 bits, most significant first. */
module Checksum {
  import opened Bytes
  import opened Regrouping

  const WIDTH: nat := 40

  type Word = w: seq<bool> | |w| == WIDTH witness Zeros(WIDTH)

  const ZERO: Word := Zeros(WIDTH)

  function Xor(a: Word, b: Word): (r: Word)
    ensures forall i :: 0 <= i < WIDTH ==> r[i] == (a[i] != b[i])
  {
    seq(WIDTH, i requires 0 <= i < WIDTH => a[i] != b[i])
  }

  const GENERATORS: seq<nat> := [0x98f2bc8e61, 0x79b76d99e2, 0xf33e5fb3c4, 0xae2eabe2a8, 0x1e4f43e470]

  /** The generator folded in when bit `1 << k` of the five shifted-out bits is set. */
  function Generator(k: nat): Word
    requires k < 5
  {
    ToBits(GENERATORS[k], WIDTH)
  }

  /** Keep the low 35 bits and shift them up by five. */
  function Shifted(c: Word): Word {
    c[5..] + Zeros(5)
  }

  function Pick(on: bool, g: Word): Word {
    if on then g else ZERO
  }

  /** The first `k` generators selected by the bits that leave the state. */
  function Feedback(c: Word, k: nat): Word
    requires k <= 5
  {
    if k == 0 then ZERO else Xor(Feedback(c, k - 1), Pick(c[5 - k], Generator(k - 1)))
  }

  function Step(c: Word, d: Word): Word {
    Xor(Xor(Shifted(c), d), Feedback(c, 5))
  }

  function Run(c: Word, ds: seq<Word>): Word
    decreases |ds|
  {
    if ds == [] then c else Run(Step(c, ds[0]), ds[1..])
  }

  function Words(data: Bytes): (r: seq<Word>)
    ensures |r| == |data| && forall i :: 0 <= i < |r| ==> r[i] == ToBits(data[i], WIDTH)
  {
    seq(|data|, i requires 0 <= i < |data| => ToBits(data[i], WIDTH))
  }

  const ONE: Word := ToBits(1, WIDTH)

  function Polymod(data: Bytes): Word {
    Xor(Run(ONE, Words(data)), ONE)
  }

  lemma RunStep(c: Word, ds: seq<Word>, i: nat)
    requires i < |ds|
    ensures Run(c, ds[i..]) == Run(Step(c, ds[i]), ds[i + 1..])
  {
    assert ds[i..][1..] == ds[i + 1..];
  }

  lemma XorZero(c: Word)
    ensures Xor(c, ZERO) == c
  {
  }

  lemma FoldGenerator(c: Word, shifted: Word, was: Word, k: nat)
    requires k < 5 && c == Xor(shifted, Feedback(was, k))
    ensures Xor(shifted, Feedback(was, k + 1)) == if was[4 - k] then Xor(c, Generator(k)) else c
  {
  }

  method PolymodLoop(data: Bytes) returns (r: Word)
    ensures r == Polymod(data)
  {
    var c := ONE;
    ghost var ds := Words(data);
    for i := 0 to |data|
      invariant Run(c, ds[i..]) == Run(ONE, ds)
    {
      ghost var was := c;
      RunStep(c, ds, i);
      var c0 := c[..5];
      c := Xor(Shifted(c), ToBits(data[i], WIDTH));
      ghost var shifted := c;
      XorZero(c);
      for k := 0 to 5
        invariant c == Xor(shifted, Feedback(was, k))
      {
        FoldGenerator(c, shifted, was, k);
        if c0[4 - k] {
          c := Xor(c, Generator(k));
        }
      }
    }
    r := Xor(c, ONE);
  }

  // ---------------------------------------------------------------- linearity

  /** One bit of the feedback, one generator at a time. */
  lemma FeedbackBit(c: Word, k: nat, i: nat)
    requires 0 < k <= 5 && i < WIDTH
    ensures Feedback(c, k)[i] == (Feedback(c, k - 1)[i] != (c[5 - k] && Generator(k - 1)[i]))
  {
    hide Generator;
  }

  lemma {:induction false} FeedbackLinearAt(a: Word, b: Word, k: nat, i: nat)
    requires k <= 5 && i < WIDTH
    ensures Feedback(Xor(a, b), k)[i] == (Feedback(a, k)[i] != Feedback(b, k)[i])
  {
    if k == 0 {
      NoFeedback(a);
      NoFeedback(b);
      NoFeedback(Xor(a, b));
    } else {
      hide Feedback, Generator;
      FeedbackLinearAt(a, b, k - 1, i);
      FeedbackBit(a, k, i);
      FeedbackBit(b, k, i);
      FeedbackBit(Xor(a, b), k, i);
    }
  }

  lemma NoFeedback(c: Word)
    ensures Feedback(c, 0) == ZERO
  {
  }

  lemma FeedbackLinear(a: Word, b: Word, k: nat)
    requires k <= 5
    ensures Feedback(Xor(a, b), k) == Xor(Feedback(a, k), Feedback(b, k))
  {
    hide Feedback;
    var l, r := Feedback(Xor(a, b), k), Xor(Feedback(a, k), Feedback(b, k));
    forall i | 0 <= i < WIDTH ensures l[i] == r[i] {
      FeedbackLinearAt(a, b, k, i);
    }
  }

  lemma StepLinear(a: Word, b: Word, x: Word, y: Word)
    ensures Step(Xor(a, b), Xor(x, y)) == Xor(Step(a, x), Step(b, y))
  {
    FeedbackLinear(a, b, 5);
  }

  function Xors(xs: seq<Word>, ys: seq<Word>): (r: seq<Word>)
    requires |xs| == |ys|
    ensures |r| == |xs| && forall i :: 0 <= i < |r| ==> r[i] == Xor(xs[i], ys[i])
  {
    seq(|xs|, i requires 0 <= i < |xs| => Xor(xs[i], ys[i]))
  }

  /** The whole loop is linear over exclusive-or in the start state and the symbols together. */
  lemma {:induction false} RunLinear(a: Word, b: Word, xs: seq<Word>, ys: seq<Word>)
    requires |xs| == |ys|
    ensures Run(Xor(a, b), Xors(xs, ys)) == Xor(Run(a, xs), Run(b, ys))
    decreases |xs|
  {
    if xs != [] {
      StepLinear(a, b, xs[0], ys[0]);
      assert Xors(xs, ys)[1..] == Xors(xs[1..], ys[1..]);
      RunLinear(Step(a, xs[0]), Step(b, ys[0]), xs[1..], ys[1..]);
    }
  }

  lemma {:induction false} RunAppend(c: Word, xs: seq<Word>, ys: seq<Word>)
    ensures Run(c, xs + ys) == Run(Run(c, xs), ys)
    decreases |xs|
  {
    if xs == [] {
      assert xs + ys == ys;
    } else {
      var next := Step(c, xs[0]);
      assert (xs + ys)[1..] == xs[1..] + ys;
      RunAppend(next, xs[1..], ys);
    }
  }

  // ---------------------------------------------------------------- the checksum verifies

  /** A word that is a single five-bit symbol. */
  ghost predicate Symbol(d: Word) {
    forall i :: 0 <= i < 35 ==> !d[i]
  }

  function SymbolBits(ds: seq<Word>): seq<bool> {
    if ds == [] then [] else ds[0][35..] + SymbolBits(ds[1..])
  }

  lemma {:induction false} FeedbackOfZeros(c: Word, k: nat)
    requires k <= 5 && forall i :: 0 <= i < 5 ==> !c[i]
    ensures Feedback(c, k) == ZERO
  {
    if k > 0 {
      FeedbackOfZeros(c, k - 1);
    }
  }

  lemma StepWithoutFeedback(c: Word, d: Word)
    requires Symbol(d) && forall i :: 0 <= i < 5 ==> !c[i]
    ensures Step(c, d) == c[5..] + d[35..]
  {
    FeedbackOfZeros(c, 5);
  }

  lemma ShiftedIn(c: Word, symbol: seq<bool>, k: nat)
    requires k + 5 <= WIDTH
    ensures (c[5..] + symbol)[k..] == c[k + 5..] + symbol
  {
  }

  lemma StillClear(c: Word, next: Word, k: nat)
    requires k + 5 <= WIDTH && next[..35] == c[5..] && forall i :: 0 <= i < k + 5 ==> !c[i]
    ensures forall i :: 0 <= i < k ==> !next[i]
  {
    assert forall i :: 0 <= i < k ==> next[i] == next[..35][i] == c[5..][i];
  }

  /** While the top of the state is clear, symbols are simply shifted in. */
  lemma {:induction false} RunFills(c: Word, ds: seq<Word>)
    requires 5 * |ds| <= WIDTH
    requires forall i :: 0 <= i < |ds| ==> Symbol(ds[i])
    requires forall i :: 0 <= i < 5 * |ds| ==> !c[i]
    ensures Run(c, ds) == c[5 * |ds|..] + SymbolBits(ds)
    decreases |ds|
  {
    hide Step, Symbol;
    if ds != [] {
      var next, rest := c[5..] + ds[0][35..], ds[1..];
      StepWithoutFeedback(c, ds[0]);
      StillClear(c, next, 5 * |rest|);
      RunFills(next, rest);
      ShiftedIn(c, ds[0][35..], 5 * |rest|);
    }
  }

  lemma WordOfSymbol(b: byte)
    requires b < 32
    ensures Symbol(ToBits(b, WIDTH)) && ToBits(b, WIDTH)[35..] == ToBits(b, 5)
  {
    ToBitsSplit(b, 35, 5);
    assert Pow2(5) == 32;
    ShrSmall(b, 5);
    ToBitsZero(35);
  }

  lemma {:induction false} SymbolBitsOfWords(data: Bytes)
    requires Fits(data, 5)
    ensures SymbolBits(Words(data)) == Flatten(data, 5)
    ensures forall i :: 0 <= i < |data| ==> Symbol(Words(data)[i])
  {
    if data != [] {
      assert Words(data)[1..] == Words(data[1..]);
      SymbolBitsOfWords(data[1..]);
      assert Pow2(5) == 32;
      WordOfSymbol(data[0]);
      assert forall i :: 1 <= i < |data| ==> Words(data)[i] == Words(data[1..])[i - 1];
    }
  }

  const TEMPLATE: Bytes := [0, 0, 0, 0, 0, 0, 0, 0]

  /** The eight symbols that follow `body`: the final state over a zero template, cut into five-bit symbols. */
  function ChecksumSymbols(body: Bytes): Bytes {
    Groups(Polymod(body + TEMPLATE), 5, false)
  }

  lemma {:induction false} ExactGroups(bits: seq<bool>)
    requires |bits| % 5 == 0
    ensures Flatten(Groups(bits, 5, false), 5) == bits && 5 * |Groups(bits, 5, false)| == |bits|
    decreases |bits|
  {
    if bits != [] {
      ExactGroups(bits[5..]);
      ToFromBits(bits[..5]);
      assert bits == bits[..5] + bits[5..];
    }
  }

  lemma WordsAppend(a: Bytes, b: Bytes)
    ensures Words(a + b) == Words(a) + Words(b)
  {
  }

  lemma XorCancels(a: Word, b: Word)
    ensures Xor(a, Xor(a, b)) == b
    ensures Xor(b, b) == ZERO
  {
  }

  lemma XorsWithTemplate(ds: seq<Word>)
    requires |ds| == 8
    ensures Xors(Words(TEMPLATE), ds) == ds
  {
    ToBitsZero(WIDTH);
    forall i | 0 <= i < 8 ensures Xor(Words(TEMPLATE)[i], ds[i]) == ds[i] {
    }
  }

  /** Every body followed by its checksum symbols has checksum value zero. */
  lemma ChecksumVerifies(body: Bytes)
    ensures |ChecksumSymbols(body)| == 8 && Fits(ChecksumSymbols(body), 5)
    ensures Polymod(body + ChecksumSymbols(body)) == ZERO
  {
    var c, ks := Run(ONE, Words(body)), ChecksumSymbols(body);
    var final := Run(c, Words(TEMPLATE));
    WordsAppend(body, TEMPLATE);
    RunAppend(ONE, Words(body), Words(TEMPLATE));
    var mod := Xor(final, ONE);
    ExactGroups(mod);
    SymbolBitsOfWords(ks);
    RunFills(ZERO, Words(ks));
    assert Run(ZERO, Words(ks)) == mod;
    XorZero(c);
    XorsWithTemplate(Words(ks));
    RunLinear(c, ZERO, Words(TEMPLATE), Words(ks));
    WordsAppend(body, ks);
    RunAppend(ONE, Words(body), Words(ks));
    XorCancels(final, ONE);
  }

  // ---------------------------------------------------------------- error detection

  lemma UnitSymbol(v: nat, k: nat)
    requires k < 5 && v == [1, 2, 4, 8, 16][k]
    ensures forall j :: 0 <= j < 5 ==> ToBits(v, 5)[j] == (j == 4 - k)
  {
    assert ToBits(v, 5) == ToBits(v / 8, 2) + [v / 4 % 2 == 1, v / 2 % 2 == 1, v % 2 == 1];
  }

  lemma GeneratorLow(k: nat)
    requires k < 5
    ensures LowBits(GENERATORS[k], 5) == [1, 2, 4, 8, 16][k]
  {
    assert LowBits(0x98f2bc8e61, 5) == 1;
    assert LowBits(0x79b76d99e2, 5) == 2;
    assert LowBits(0xf33e5fb3c4, 5) == 4;
    assert LowBits(0xae2eabe2a8, 5) == 8;
    assert LowBits(0x1e4f43e470, 5) == 16;
  }

  /** The five low bits of generator `k` are the unit vector that selects it. */
  lemma GeneratorUnit(k: nat, j: nat)
    requires k < 5 && j < 5
    ensures Generator(k)[35 + j] == (j == 4 - k)
  {
    var g := GENERATORS[k];
    ToBitsSplit(g, 35, 5);
    LowBitsKeep(g, 5, 5);
    GeneratorLow(k);
    UnitSymbol(LowBits(g, 5), k);
  }

  lemma {:induction false} FeedbackLow(c: Word, k: nat, j: nat)
    requires k <= 5 && j < 5
    ensures Feedback(c, k)[35 + j] == (4 - j < k && c[j])
  {
    hide Feedback, Generator;
    if k == 0 {
      NoFeedback(c);
    } else {
      FeedbackLow(c, k - 1, j);
      GeneratorUnit(k - 1, j);
      FeedbackBit(c, k, 35 + j);
    }
  }

  lemma StepKernel(c: Word)
    requires Xor(Shifted(c), Feedback(c, 5)) == ZERO
    ensures c == ZERO
  {
    forall j | 0 <= j < 5 ensures !c[j] {
      FeedbackLow(c, 5, j);
      assert !Xor(Shifted(c), Feedback(c, 5))[35 + j];
    }
    FeedbackOfZeros(c, 5);
    forall i | 5 <= i < WIDTH ensures !c[i] {
      assert Shifted(c)[i - 5] == c[i];
      assert !Xor(Shifted(c), ZERO)[i - 5];
    }
  }

  /** Each step is injective in the 40-bit state. */
  lemma StepInjective(a: Word, b: Word, d: Word)
    ensures Step(a, d) == Step(b, d) ==> a == b
  {
    if Step(a, d) == Step(b, d) {
      StepLinear(a, b, d, d);
      XorCancels(Step(a, d), Step(b, d));
      var z := Xor(a, b);
      XorCancels(d, d);
      assert Step(z, ZERO) == ZERO;
      XorZero(Shifted(z));
      StepKernel(z);
      XorZeroMeansEqual(a, b);
    }
  }

  lemma XorZeroMeansEqual(a: Word, b: Word)
    requires Xor(a, b) == ZERO
    ensures a == b
  {
    forall i | 0 <= i < WIDTH ensures a[i] == b[i] {
      assert !Xor(a, b)[i];
    }
  }

  lemma {:induction false} RunInjective(a: Word, b: Word, ds: seq<Word>)
    requires Run(a, ds) == Run(b, ds)
    ensures a == b
    decreases |ds|
  {
    if ds != [] {
      RunInjective(Step(a, ds[0]), Step(b, ds[0]), ds[1..]);
      StepInjective(a, b, ds[0]);
    }
  }

  lemma {:induction false} ZeroSymbolBits(ds: seq<Word>)
    requires forall i :: 0 <= i < |ds| ==> Symbol(ds[i])
    requires forall i :: 0 <= i < |SymbolBits(ds)| ==> !SymbolBits(ds)[i]
    ensures forall i :: 0 <= i < |ds| ==> ds[i] == ZERO
    decreases |ds|
  {
    if ds != [] {
      var bits, rest := SymbolBits(ds), SymbolBits(ds[1..]);
      assert forall i :: 0 <= i < |rest| ==> rest[i] == bits[5 + i];
      ZeroSymbolBits(ds[1..]);
      forall i | 35 <= i < WIDTH ensures !ds[0][i] {
        assert ds[0][35..][i - 35] == bits[i - 35];
      }
      assert ds[0] == ZERO;
      assert forall i :: 1 <= i < |ds| ==> ds[i] == ds[1..][i - 1];
    }
  }

  lemma SameWordSameByte(a: byte, b: byte)
    requires ToBits(a, WIDTH) == ToBits(b, WIDTH)
    ensures a == b
  {
    assert Pow2(8) == 256;
    Pow2Monotone(8, WIDTH);
    FromToBits(a, WIDTH);
    FromToBits(b, WIDTH);
  }

  /** The symbol-wise difference of two strings that lead to one state leads from nothing to nothing. */
  lemma DifferenceVanishes(c: Word, xs: seq<Word>, ys: seq<Word>)
    requires |xs| == |ys| && Run(c, xs) == Run(c, ys)
    ensures Run(ZERO, Xors(xs, ys)) == ZERO
  {
    hide Run;
    RunLinear(c, c, xs, ys);
    XorCancels(Run(c, xs), c);
    XorCancels(c, c);
  }

  lemma XorSymbol(x: Word, y: Word)
    requires Symbol(x) && Symbol(y)
    ensures Symbol(Xor(x, y))
  {
  }

  /** At most eight symbols that lead from nothing to nothing are all zero. */
  lemma ShortRunsFromZero(ds: seq<Word>)
    requires |ds| <= 8 && Run(ZERO, ds) == ZERO && forall i :: 0 <= i < |ds| ==> Symbol(ds[i])
    ensures forall i :: 0 <= i < |ds| ==> ds[i] == ZERO
  {
    hide Run, SymbolBits, Symbol;
    RunFills(ZERO, ds);
    var k := WIDTH - 5 * |ds|;
    assert |ZERO[5 * |ds|..]| == k;
    assert forall i :: 0 <= i < |SymbolBits(ds)| ==> SymbolBits(ds)[i] == ZERO[k + i];
    ZeroSymbolBits(ds);
  }

  /** From one state, two different strings of at most eight symbols never lead to the same state. */
  lemma ShortRunsDiffer(c: Word, a: Bytes, b: Bytes)
    requires |a| == |b| <= 8 && Fits(a, 5) && Fits(b, 5)
    requires Run(c, Words(a)) == Run(c, Words(b))
    ensures a == b
  {
    hide Run, Symbol, Xor;
    var xs := Xors(Words(a), Words(b));
    DifferenceVanishes(c, Words(a), Words(b));
    SymbolBitsOfWords(a);
    SymbolBitsOfWords(b);
    forall i | 0 <= i < |xs| ensures Symbol(xs[i]) {
      XorSymbol(Words(a)[i], Words(b)[i]);
    }
    ShortRunsFromZero(xs);
    forall i | 0 <= i < |a| ensures a[i] == b[i] {
      XorZeroMeansEqual(Words(a)[i], Words(b)[i]);
      SameWordSameByte(a[i], b[i]);
    }
  }

  lemma RunThreeParts(pre: Bytes, mid: Bytes, post: Bytes)
    ensures Run(ONE, Words(pre + mid + post)) == Run(Run(Run(ONE, Words(pre)), Words(mid)), Words(post))
  {
    WordsAppend(pre + mid, post);
    WordsAppend(pre, mid);
    RunAppend(ONE, Words(pre + mid), Words(post));
    RunAppend(ONE, Words(pre), Words(mid));
  }

  /** Any change confined to eight consecutive symbols changes the checksum value. */
  lemma BurstDetected(pre: Bytes, a: Bytes, b: Bytes, post: Bytes)
    requires |a| == |b| <= 8 && Fits(a, 5) && Fits(b, 5) && a != b
    ensures Polymod(pre + a + post) != Polymod(pre + b + post)
  {
    if Polymod(pre + a + post) == Polymod(pre + b + post) {
      var ra, rb := Run(ONE, Words(pre + a + post)), Run(ONE, Words(pre + b + post));
      XorSame(ra, rb, ONE);
      RunThreeParts(pre, a, post);
      RunThreeParts(pre, b, post);
      var c := Run(ONE, Words(pre));
      RunInjective(Run(c, Words(a)), Run(c, Words(b)), Words(post));
      ShortRunsDiffer(c, a, b);
    }
  }

  lemma XorSame(a: Word, b: Word, x: Word)
    requires Xor(a, x) == Xor(b, x)
    ensures a == b
  {
    forall i | 0 <= i < WIDTH ensures a[i] == b[i] {
      assert Xor(a, x)[i] == Xor(b, x)[i];
    }
  }
}
