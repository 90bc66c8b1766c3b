/** What the address checksum computes, apart from its table: the remainder of a polynomial over the field of 32
    elements (polymod, internal/bch/cashaddr.go; CashAddr specification, section "Checksum"). */
module Remainder {
  import opened Bytes
  import opened Regrouping
  import opened Checksum

  // ---------------------------------------------------------------- the field

  /** A polynomial in x of degree below five over the two-element field, modulo x^5 + x^3 + 1. */
  datatype Elem = Elem(b4: bool, b3: bool, b2: bool, b1: bool, b0: bool)

  const Zero: Elem := Elem(false, false, false, false, false)
  const One: Elem := Elem(false, false, false, false, true)

  function Plus(a: Elem, b: Elem): Elem {
    Elem(a.b4 != b.b4, a.b3 != b.b3, a.b2 != b.b2, a.b1 != b.b1, a.b0 != b.b0)
  }

  /** x^5 is x^3 + 1. */
  function TimesX(a: Elem): Elem {
    Elem(a.b3, a.b2 != a.b4, a.b1, a.b0, a.b4)
  }

  function If(on: bool, a: Elem): Elem {
    if on then a else Zero
  }

  function Times(a: Elem, b: Elem): Elem {
    var b1 := TimesX(b);
    var b2 := TimesX(b1);
    var b3 := TimesX(b2);
    var b4 := TimesX(b3);
    Plus(If(a.b4, b4), Plus(If(a.b3, b3), Plus(If(a.b2, b2), Plus(If(a.b1, b1), If(a.b0, b)))))
  }

  lemma PlusSwaps(a: Elem, b: Elem, c: Elem, d: Elem)
    ensures Plus(Plus(a, b), Plus(c, d)) == Plus(Plus(a, c), Plus(b, d))
  {
  }

  lemma PlusLaws(a: Elem, b: Elem)
    ensures Plus(a, b) == Plus(b, a) && Plus(a, Zero) == a && Plus(a, a) == Zero
    ensures Plus(a, b) == Zero ==> a == b
  {
  }

  lemma IfSplits(p: bool, q: bool, a: Elem)
    ensures If(p != q, a) == Plus(If(p, a), If(q, a))
  {
  }

  lemma FiveSwap(x4: Elem, x3: Elem, x2: Elem, x1: Elem, x0: Elem, y4: Elem, y3: Elem, y2: Elem, y1: Elem, y0: Elem)
    ensures Plus(Plus(x4, y4), Plus(Plus(x3, y3), Plus(Plus(x2, y2), Plus(Plus(x1, y1), Plus(x0, y0)))))
         == Plus(Plus(x4, Plus(x3, Plus(x2, Plus(x1, x0)))), Plus(y4, Plus(y3, Plus(y2, Plus(y1, y0)))))
  {
    hide Plus;
    PlusSwaps(x1, y1, x0, y0);
    PlusSwaps(x2, y2, Plus(x1, x0), Plus(y1, y0));
    PlusSwaps(x3, y3, Plus(x2, Plus(x1, x0)), Plus(y2, Plus(y1, y0)));
    PlusSwaps(x4, y4, Plus(x3, Plus(x2, Plus(x1, x0))), Plus(y3, Plus(y2, Plus(y1, y0))));
  }

  lemma PlusBits(a: Elem, b: Elem)
    ensures var p := Plus(a, b);
      && p.b4 == (a.b4 != b.b4) && p.b3 == (a.b3 != b.b3) && p.b2 == (a.b2 != b.b2) && p.b1 == (a.b1 != b.b1)
      && p.b0 == (a.b0 != b.b0)
  {
  }

  lemma TimesDistributes(a: Elem, b: Elem, c: Elem)
    ensures Times(Plus(a, b), c) == Plus(Times(a, c), Times(b, c))
  {
    hide Plus, If, TimesX;
    PlusBits(a, b);
    var c1 := TimesX(c);
    var c2 := TimesX(c1);
    var c3 := TimesX(c2);
    var c4 := TimesX(c3);
    IfSplits(a.b4, b.b4, c4);
    IfSplits(a.b3, b.b3, c3);
    IfSplits(a.b2, b.b2, c2);
    IfSplits(a.b1, b.b1, c1);
    IfSplits(a.b0, b.b0, c);
    FiveSwap(If(a.b4, c4), If(a.b3, c3), If(a.b2, c2), If(a.b1, c1), If(a.b0, c),
             If(b.b4, c4), If(b.b3, c3), If(b.b2, c2), If(b.b1, c1), If(b.b0, c));
  }

  lemma TimesOne(a: Elem)
    ensures Times(a, One) == a
  {
    hide TimesX, Plus;
    var x1 := TimesX(One);
    var x2 := TimesX(x1);
    var x3 := TimesX(x2);
    var x4 := TimesX(x3);
    PowersOfX();
    FiveParts(a);
  }

  lemma PowersOfX()
    ensures TimesX(One) == Elem(false, false, false, true, false)
    ensures TimesX(TimesX(One)) == Elem(false, false, true, false, false)
    ensures TimesX(TimesX(TimesX(One))) == Elem(false, true, false, false, false)
    ensures TimesX(TimesX(TimesX(TimesX(One)))) == Elem(true, false, false, false, false)
  {
  }

  lemma FiveParts(a: Elem)
    ensures Plus(If(a.b4, Elem(true, false, false, false, false)),
                 Plus(If(a.b3, Elem(false, true, false, false, false)),
                      Plus(If(a.b2, Elem(false, false, true, false, false)),
                           Plus(If(a.b1, Elem(false, false, false, true, false)), If(a.b0, One))))) == a
  {
  }

  /** The symbol with this value. */
  function ElemOf(d: nat): Elem {
    Elem(d / 16 % 2 == 1, d / 8 % 2 == 1, d / 4 % 2 == 1, d / 2 % 2 == 1, d % 2 == 1)
  }

  // ---------------------------------------------------------------- polynomials, highest coefficient first

  function Nulls(n: nat): (r: seq<Elem>)
    ensures |r| == n
  {
    seq(n, i => Zero)
  }

  function Added(a: seq<Elem>, b: seq<Elem>): (r: seq<Elem>)
    requires |a| == |b|
    ensures |r| == |a| && forall i :: 0 <= i < |r| ==> r[i] == Plus(a[i], b[i])
  {
    seq(|a|, i requires 0 <= i < |a| => Plus(a[i], b[i]))
  }

  function Scaled(c: Elem, a: seq<Elem>): (r: seq<Elem>)
    ensures |r| == |a| && forall i :: 0 <= i < |r| ==> r[i] == Times(c, a[i])
  {
    seq(|a|, i requires 0 <= i < |a| => Times(c, a[i]))
  }

  function Coefficients(data: Bytes): (r: seq<Elem>)
    ensures |r| == |data| && forall i :: 0 <= i < |r| ==> r[i] == ElemOf(data[i])
  {
    seq(|data|, i requires 0 <= i < |data| => ElemOf(data[i]))
  }

  /** X^8 + 19 X^7 + 3 X^6 + 25 X^5 + 11 X^4 + 25 X^3 + 3 X^2 + 19 X + 1. */
  const DIVISOR: seq<Elem> := Coefficients([1, 19, 3, 25, 11, 25, 3, 19, 1])

  /** `q` times the divisor: X times the product of all but the last coefficient, and the last one's share. */
  function Product(q: seq<Elem>): (r: seq<Elem>)
    ensures |r| == |q| + 8
  {
    if q == [] then Nulls(8)
    else
      var k := |q| - 1;
      Added(Product(q[..k]) + [Zero], Nulls(k) + Scaled(q[k], DIVISOR))
  }

  /** `p` is some multiple of the divisor plus `r`, which is of lower degree. */
  ghost predicate IsRemainder(p: seq<Elem>, r: seq<Elem>) {
    |r| == 8 && exists q :: |p| == |q| + 8 && p == Added(Product(q), Nulls(|q|) + r)
  }

  // ---------------------------------------------------------------- one step

  function ElemAt(w: Word, j: nat): Elem
    requires j < 8
  {
    Elem(w[5 * j], w[5 * j + 1], w[5 * j + 2], w[5 * j + 3], w[5 * j + 4])
  }

  /** A state as the coefficients of a polynomial of degree below eight. */
  function Elems(w: Word): (r: seq<Elem>)
    ensures |r| == 8 && forall j :: 0 <= j < 8 ==> r[j] == ElemAt(w, j)
  {
    seq(8, j requires 0 <= j < 8 => ElemAt(w, j))
  }

  /** Times X plus `d`, with X^8 replaced by the rest of the divisor. */
  function Reduced(r: seq<Elem>, d: Elem): (t: seq<Elem>)
    requires |r| == 8
    ensures |t| == 8
  {
    Added(r[1..] + [d], Scaled(r[0], DIVISOR[1..]))
  }

  function Value(digits: seq<nat>): nat {
    if digits == [] then 0 else 32 * Value(digits[..|digits| - 1]) + digits[|digits| - 1]
  }

  lemma FiveBits(v: nat, d: nat, n: nat)
    requires d < 32
    ensures ToBits(32 * v + d, n + 5) == ToBits(v, n)
         + [d / 16 % 2 == 1, d / 8 % 2 == 1, d / 4 % 2 == 1, d / 2 % 2 == 1, d % 2 == 1]
  {
    hide ToBits;
    assert Pow2(5) == 32;
    ToBitsJoin(v, d, n, 5);
    LowFive(d);
  }

  lemma LowFive(d: nat)
    ensures ToBits(d, 5) == [d / 16 % 2 == 1, d / 8 % 2 == 1, d / 4 % 2 == 1, d / 2 % 2 == 1, d % 2 == 1]
  {
    hide ToBits;
    var d1 := d / 2;
    var d2 := d1 / 2;
    var d3 := d2 / 2;
    var d4 := d3 / 2;
    assert d2 == d / 4 && d3 == d / 8 && d4 == d / 16;
    OneBit(d, 4);
    OneBit(d1, 3);
    OneBit(d2, 2);
    OneBit(d3, 1);
    OneBit(d4, 0);
  }

  lemma OneBit(v: nat, n: nat)
    ensures ToBits(v, n + 1) == ToBits(v / 2, n) + [v % 2 == 1]
    ensures n == 0 ==> ToBits(v / 2, n) == []
  {
  }

  /** Base-32 digits are five bits each. */
  lemma {:induction false} DigitBits(digits: seq<nat>, j: nat)
    requires j < |digits| && forall i :: 0 <= i < |digits| ==> digits[i] < 32
    ensures var b := ToBits(Value(digits), 5 * |digits|);
      Elem(b[5 * j], b[5 * j + 1], b[5 * j + 2], b[5 * j + 3], b[5 * j + 4]) == ElemOf(digits[j])
  {
    var k := |digits| - 1;
    FiveBits(Value(digits[..k]), digits[k], 5 * k);
    if j < k {
      DigitBits(digits[..k], j);
    }
  }

  // ---------------------------------------------------------------- the code's table

  /** `a` times x to the `k`. */
  function Powered(a: Elem, k: nat): Elem {
    if k == 0 then a else TimesX(Powered(a, k - 1))
  }

  /** The base-32 digits of the table's numbers. */
  const DIGITS: seq<seq<nat>> := [
    [19, 3, 25, 11, 25, 3, 19, 1],
    [15, 6, 27, 22, 27, 6, 15, 2],
    [30, 12, 31, 5, 31, 12, 30, 4],
    [21, 24, 23, 10, 23, 24, 21, 8],
    [3, 25, 7, 20, 7, 25, 3, 16]]

  lemma EightDigits(d: seq<nat>)
    requires |d| == 8
    ensures Value(d) == 0x8_0000_0000 * d[0] + 0x4000_0000 * d[1] + 0x200_0000 * d[2] + 0x10_0000 * d[3]
                      + 0x8000 * d[4] + 0x400 * d[5] + 0x20 * d[6] + d[7]
  {
    forall n | 0 < n <= 8 ensures Value(d[..n]) == 32 * Value(d[..n - 1]) + d[n - 1] {
      assert d[..n][..n - 1] == d[..n - 1];
    }
    assert d[..8] == d && Value(d[..0]) == 0;
    assert Value(d[..4]) == 0x8000 * d[0] + 0x400 * d[1] + 0x20 * d[2] + d[3];
  }

  lemma DigitsSpelled(k: nat)
    requires k < 5
    ensures |DIGITS[k]| == 8 && Value(DIGITS[k]) == GENERATORS[k]
  {
    EightDigits(DIGITS[k]);
  }

  /** Each row is the one before it times x. */
  lemma RowsDouble(k: nat, j: nat)
    requires 0 < k < 5 && j < 8
    ensures |DIGITS[k]| == 8 == |DIGITS[k - 1]| && DIGITS[k][j] < 32
    ensures ElemOf(DIGITS[k][j]) == TimesX(ElemOf(DIGITS[k - 1][j]))
  {
    assert DIGITS[k] == [DIGITS[k][0], DIGITS[k][1], DIGITS[k][2], DIGITS[k][3],
                         DIGITS[k][4], DIGITS[k][5], DIGITS[k][6], DIGITS[k][7]];
  }

  lemma DigitPowers(k: nat, j: nat)
    requires k < 5 && j < 8
    ensures |DIGITS[k]| == 8 && DIGITS[k][j] < 32
    ensures ElemOf(DIGITS[k][j]) == Powered(DIVISOR[j + 1], k)
  {
    hide ElemOf, TimesX;
    if k > 0 {
      DigitPowers(k - 1, j);
      RowsDouble(k, j);
    }
  }

  /** The number for bit `k` of the symbol shifted out is x to the `k` times the low coefficients of the divisor. */
  lemma GeneratorIsMultiple(k: nat, j: nat)
    requires k < 5 && j < 8
    ensures ElemAt(Generator(k), j) == Powered(DIVISOR[j + 1], k)
  {
    hide ToBits, Value, Powered, ElemOf;
    DigitsSpelled(k);
    DigitPowers(k, j);
    forall i | 0 <= i < 8 ensures DIGITS[k][i] < 32 {
      DigitPowers(k, i);
    }
    DigitBits(DIGITS[k], j);
  }

  // ---------------------------------------------------------------- one step is one step of the division

  /** One number of the table more. */
  lemma FeedbackElem(c: Word, k: nat, j: nat)
    requires 0 < k <= 5 && j < 8
    ensures ElemAt(Feedback(c, k), j)
         == Plus(If(c[5 - k], Powered(DIVISOR[j + 1], k - 1)), ElemAt(Feedback(c, k - 1), j))
  {
    hide Powered, Generator, Feedback;
    GeneratorIsMultiple(k - 1, j);
    FeedbackBit(c, k, 5 * j);
    FeedbackBit(c, k, 5 * j + 1);
    FeedbackBit(c, k, 5 * j + 2);
    FeedbackBit(c, k, 5 * j + 3);
    FeedbackBit(c, k, 5 * j + 4);
  }

  lemma NoFeedbackElem(c: Word, j: nat)
    requires j < 8
    ensures ElemAt(Feedback(c, 0), j) == Zero
  {
  }

  lemma FivePowers(b: Elem)
    ensures Powered(b, 0) == b && Powered(b, 1) == TimesX(b) && Powered(b, 2) == TimesX(TimesX(b))
    ensures Powered(b, 3) == TimesX(TimesX(TimesX(b))) && Powered(b, 4) == TimesX(TimesX(TimesX(TimesX(b))))
  {
    hide TimesX;
  }

  /** What is folded back is the symbol shifted out times the low coefficients of the divisor. */
  lemma FeedbackIsProduct(c: Word, j: nat)
    requires j < 8
    ensures ElemAt(Feedback(c, 5), j) == Times(ElemAt(c, 0), DIVISOR[j + 1])
  {
    hide Powered, Feedback, Plus, If, TimesX;
    var b := DIVISOR[j + 1];
    FivePowers(b);
    NoFeedbackElem(c, j);
    PlusLaws(If(c[4], b), Zero);
    FeedbackElem(c, 1, j);
    FeedbackElem(c, 2, j);
    FeedbackElem(c, 3, j);
    FeedbackElem(c, 4, j);
    FeedbackElem(c, 5, j);
  }

  lemma XorElem(a: Word, b: Word, j: nat)
    requires j < 8
    ensures ElemAt(Xor(a, b), j) == Plus(ElemAt(a, j), ElemAt(b, j))
  {
  }

  lemma ShiftedElem(c: Word, j: nat)
    requires j < 8
    ensures ElemAt(Shifted(c), j) == if j < 7 then ElemAt(c, j + 1) else Zero
  {
  }

  lemma SymbolElem(d: Word, j: nat)
    requires Symbol(d) && j < 7
    ensures ElemAt(d, j) == Zero
  {
  }

  lemma StepReduces(c: Word, d: Word)
    requires Symbol(d)
    ensures Elems(Step(c, d)) == Reduced(Elems(c), ElemAt(d, 7))
  {
    hide Feedback, Shifted, Symbol, ElemAt, Plus, Times, Xor;
    forall j | 0 <= j < 8 ensures ElemAt(Step(c, d), j) == Reduced(Elems(c), ElemAt(d, 7))[j] {
      XorElem(Xor(Shifted(c), d), Feedback(c, 5), j);
      XorElem(Shifted(c), d, j);
      ShiftedElem(c, j);
      FeedbackIsProduct(c, j);
      PlusLaws(ElemAt(d, j), Zero);
      if j < 7 {
        SymbolElem(d, j);
        PlusLaws(ElemAt(c, j + 1), Zero);
      }
    }
  }

  // ---------------------------------------------------------------- the whole input

  /** Long division, one coefficient on. */
  lemma DivisionStep(p: seq<Elem>, q: seq<Elem>, r: seq<Elem>, d: Elem)
    requires |r| == 8 && |p| == |q| + 8 && p == Added(Product(q), Nulls(|q|) + r)
    ensures p + [d] == Added(Product(q + [r[0]]), Nulls(|q| + 1) + Reduced(r, d))
  {
    hide Product, Reduced, Scaled;
    ProductStep(q, r[0]);
    forall i | 0 <= i < |p| + 1
      ensures (p + [d])[i] == Added(Product(q + [r[0]]), Nulls(|q| + 1) + Reduced(r, d))[i]
    {
      DivisionAt(Product(q), r, d, |q|, i);
    }
  }

  lemma DivisionAt(a: seq<Elem>, r: seq<Elem>, d: Elem, n: nat, i: nat)
    requires |r| == 8 && |a| == n + 8 && i < n + 9
    ensures Plus(Plus((a + [Zero])[i], (Nulls(n) + Scaled(r[0], DIVISOR))[i]), (Nulls(n + 1) + Reduced(r, d))[i])
         == (Added(a, Nulls(n) + r) + [d])[i]
  {
    hide Plus, Times;
    var share := (Nulls(n) + Scaled(r[0], DIVISOR))[i];
    var was := (a + [Zero])[i];
    PlusLaws(was, Zero);
    if i > n {
      Cancels(was, share, if i < n + 8 then r[i - n] else d);
    } else {
      PlusLaws(Plus(was, share), Zero);
      TimesOne(r[0]);
      assert DIVISOR[0] == One;
    }
  }

  lemma ProductStep(q: seq<Elem>, c: Elem)
    ensures Product(q + [c]) == Added(Product(q) + [Zero], Nulls(|q|) + Scaled(c, DIVISOR))
  {
    assert (q + [c])[..|q|] == q;
  }

  lemma Cancels(a: Elem, s: Elem, b: Elem)
    ensures Plus(Plus(a, s), Plus(b, s)) == Plus(a, b) && Plus(Zero, b) == b
  {
  }

  /** One symbol of the input is one more coefficient of the dividend. */
  lemma StepDivides(c: Word, p: seq<Elem>, d: byte)
    requires d < 32 && IsRemainder(p, Elems(c))
    ensures IsRemainder(p + [ElemOf(d)], Elems(Step(c, ToBits(d, WIDTH))))
  {
    hide Step, Elems, Reduced, Product, ToBits, ElemOf;
    var q :| |p| == |q| + 8 && p == Added(Product(q), Nulls(|q|) + Elems(c));
    OneSymbol(d);
    StepReduces(c, ToBits(d, WIDTH));
    DivisionStep(p, q, Elems(c), ElemOf(d));
    var r := q + [Elems(c)[0]];
    assert |p + [ElemOf(d)]| == |r| + 8;
  }

  lemma OneSymbol(d: byte)
    requires d < 32
    ensures Symbol(ToBits(d, WIDTH)) && ElemAt(ToBits(d, WIDTH), 7) == ElemOf(d)
  {
    assert Pow2(5) == 32;
    WordOfSymbol(d);
    FiveBits(0, d, 35);
  }

  lemma {:induction false} RunDivides(c: Word, p: seq<Elem>, data: Bytes)
    requires Fits(data, 5) && IsRemainder(p, Elems(c))
    ensures IsRemainder(p + Coefficients(data), Elems(Run(c, Words(data))))
    decreases |data|
  {
    hide Step, Elems, IsRemainder, ElemOf, ToBits;
    if data == [] {
      assert p + Coefficients(data) == p && Words(data) == [];
    } else {
      assert data[0] < 32 by { assert Pow2(5) == 32; }
      StepDivides(c, p, data[0]);
      assert Words(data)[1..] == Words(data[1..]);
      RunDivides(Step(c, Words(data)[0]), p + [ElemOf(data[0])], data[1..]);
      assert p + [ElemOf(data[0])] + Coefficients(data[1..]) == p + Coefficients(data);
    }
  }

  /** The state after any symbols is the remainder, by the divisor, of the polynomial with coefficients 1 and then the
      symbols. */
  lemma RunIsRemainder(data: Bytes)
    requires Fits(data, 5)
    ensures IsRemainder(Nulls(7) + [One] + Coefficients(data), Elems(Run(ONE, Words(data))))
  {
    var p := Nulls(7) + [One];
    OneElems();
    var q: seq<Elem> := [];
    assert |p| == |q| + 8 && p == Added(Product(q), Nulls(|q|) + Elems(ONE));
    RunDivides(ONE, p, data);
  }

  lemma OneElems()
    ensures Elems(ONE) == Nulls(7) + [One]
  {
    FiveBits(0, 1, 35);
    ToBitsZero(35);
  }

  /** What the loop returns is that remainder with its constant coefficient changed by one. */
  lemma PolymodIsRemainder(data: Bytes)
    requires Fits(data, 5)
    ensures IsRemainder(Nulls(7) + [One] + Coefficients(data), Added(Elems(Polymod(data)), Nulls(7) + [One]))
  {
    hide IsRemainder, Run, Elems;
    RunIsRemainder(data);
    OneElems();
    var r := Run(ONE, Words(data));
    forall j | 0 <= j < 8 ensures Added(Elems(Polymod(data)), Nulls(7) + [One])[j] == Elems(r)[j] {
      XorElem(r, ONE, j);
      Cancels(ElemAt(r, j), ElemAt(ONE, j), Zero);
      PlusLaws(ElemAt(r, j), Zero);
    }
    assert Added(Elems(Polymod(data)), Nulls(7) + [One]) == Elems(r);
  }

  // ---------------------------------------------------------------- there is only one remainder

  lemma AddedSwaps(a: seq<Elem>, b: seq<Elem>, c: seq<Elem>, d: seq<Elem>)
    requires |a| == |b| == |c| == |d|
    ensures Added(Added(a, b), Added(c, d)) == Added(Added(a, c), Added(b, d))
  {
    hide Plus;
    forall i | 0 <= i < |a| ensures Added(Added(a, b), Added(c, d))[i] == Added(Added(a, c), Added(b, d))[i] {
      PlusSwaps(a[i], b[i], c[i], d[i]);
    }
  }

  lemma ScaledAdds(c: Elem, d: Elem, a: seq<Elem>)
    ensures Scaled(Plus(c, d), a) == Added(Scaled(c, a), Scaled(d, a))
  {
    hide Plus, Times;
    forall i | 0 <= i < |a| ensures Scaled(Plus(c, d), a)[i] == Added(Scaled(c, a), Scaled(d, a))[i] {
      TimesDistributes(c, d, a[i]);
    }
  }

  lemma PaddedAdds(n: nat, a: seq<Elem>, b: seq<Elem>, m: nat)
    requires |a| == |b|
    ensures Nulls(n) + Added(a, b) + Nulls(m) == Added(Nulls(n) + a + Nulls(m), Nulls(n) + b + Nulls(m))
  {
    hide Plus;
    PlusLaws(Zero, Zero);
  }

  lemma {:induction false} ProductAdds(a: seq<Elem>, b: seq<Elem>)
    requires |a| == |b|
    ensures Product(Added(a, b)) == Added(Product(a), Product(b))
    decreases |a|
  {
    hide Product, Plus, Scaled;
    if a == [] {
      assert Added(a, b) == [] && b == [];
      NoProduct();
    } else {
      var k := |a| - 1;
      var a0, b0, c, d := a[..k], b[..k], a[k], b[k];
      ProductAdds(a0, b0);
      assert a == a0 + [c] && b == b0 + [d] && Added(a, b) == Added(a0, b0) + [Plus(c, d)];
      ProductStep(a0, c);
      ProductStep(b0, d);
      ProductStep(Added(a0, b0), Plus(c, d));
      ScaledAdds(c, d, DIVISOR);
      ShiftedAdds(Product(a0), Product(b0));
      SharesAdd(k, Scaled(c, DIVISOR), Scaled(d, DIVISOR));
      AddedSwaps(Product(a0) + [Zero], Product(b0) + [Zero], Nulls(k) + Scaled(c, DIVISOR),
                 Nulls(k) + Scaled(d, DIVISOR));
    }
  }

  lemma NoProduct()
    ensures Product([]) == Nulls(8) == Added(Nulls(8), Nulls(8))
  {
  }

  lemma ShiftedAdds(a: seq<Elem>, b: seq<Elem>)
    requires |a| == |b|
    ensures Added(a, b) + [Zero] == Added(a + [Zero], b + [Zero])
  {
    PaddedAdds(0, a, b, 1);
    assert Nulls(1) == [Zero] && Nulls(0) == [];
  }

  lemma SharesAdd(k: nat, a: seq<Elem>, b: seq<Elem>)
    requires |a| == |b|
    ensures Nulls(k) + Added(a, b) == Added(Nulls(k) + a, Nulls(k) + b)
  {
    PaddedAdds(k, a, b, 0);
    assert Nulls(0) == [];
  }

  /** The divisor's highest coefficient is one, so a product's high coefficients vanish only when the factor does. */
  lemma {:induction false} HighVanishes(q: seq<Elem>)
    requires forall i :: 0 <= i < |q| ==> Product(q)[i] == Zero
    ensures q == Nulls(|q|) && Product(q) == Nulls(|q| + 8)
    decreases |q|
  {
    hide Plus, Times, Product;
    if q == [] {
      NoProduct();
    } else {
      var k := |q| - 1;
      var c, was, share := q[k], Product(q[..k]) + [Zero], Nulls(k) + Scaled(q[k], DIVISOR);
      assert q == q[..k] + [c];
      ProductStep(q[..k], c);
      forall i | 0 <= i < k ensures Product(q[..k])[i] == Zero {
        assert Product(q)[i] == Plus(was[i], share[i]) && share[i] == Zero;
        PlusLaws(was[i], Zero);
      }
      HighVanishes(q[..k]);
      assert Product(q)[k] == Plus(Zero, share[k]);
      TimesOne(c);
      PlusLaws(c, Zero);
      assert c == Zero;
      NothingAdded(k);
    }
  }

  lemma NothingAdded(k: nat)
    ensures Added(Nulls(k + 8) + [Zero], Nulls(k) + Scaled(Zero, DIVISOR)) == Nulls(k + 9)
  {
    hide Plus, Times;
    PlusLaws(Zero, Zero);
    forall i | 0 <= i < 9 ensures Scaled(Zero, DIVISOR)[i] == Zero {
      TimesZero(DIVISOR[i]);
    }
  }

  lemma TimesZero(a: Elem)
    ensures Times(Zero, a) == Zero
  {
  }

  /** Two divisions of one polynomial differ by a multiple of the divisor, in the quotients, that is the difference of
      the remainders. */
  lemma DivisionsDiffer(p: seq<Elem>, a: seq<Elem>, r: seq<Elem>, b: seq<Elem>, s: seq<Elem>, i: nat)
    requires |r| == |s| == 8 && |a| == |b| && |p| == |a| + 8 && i < |p|
    requires p == Added(Product(a), Nulls(|a|) + r) == Added(Product(b), Nulls(|a|) + s)
    ensures Product(Added(a, b))[i] == if i < |a| then Zero else Plus(r[i - |a|], s[i - |a|])
  {
    hide Plus, Product;
    ProductAdds(a, b);
    SameSum(Product(a)[i], (Nulls(|a|) + r)[i], Product(b)[i], (Nulls(|a|) + s)[i]);
    PlusLaws(Zero, Zero);
  }

  /** Two remainders of one polynomial are the same. */
  lemma RemainderIsUnique(p: seq<Elem>, r: seq<Elem>, s: seq<Elem>)
    requires IsRemainder(p, r) && IsRemainder(p, s)
    ensures r == s
  {
    hide Plus, Product, Added;
    var a :| |p| == |a| + 8 && p == Added(Product(a), Nulls(|a|) + r);
    var b :| |p| == |b| + 8 && p == Added(Product(b), Nulls(|b|) + s);
    var n, q := |a|, Added(a, b);
    forall i | 0 <= i < n ensures Product(q)[i] == Zero {
      DivisionsDiffer(p, a, r, b, s, i);
    }
    HighVanishes(q);
    forall j | 0 <= j < 8 ensures r[j] == s[j] {
      DivisionsDiffer(p, a, r, b, s, n + j);
      PlusLaws(r[j], s[j]);
    }
  }

  lemma SameSum(a: Elem, x: Elem, b: Elem, y: Elem)
    requires Plus(a, x) == Plus(b, y)
    ensures Plus(a, b) == Plus(x, y)
  {
  }

  /** A body with its checksum symbols leaves the remainder one. */
  lemma CodewordRemainder(body: Bytes)
    requires Fits(body, 5)
    ensures IsRemainder(Nulls(7) + [One] + Coefficients(body + ChecksumSymbols(body)), Nulls(7) + [One])
  {
    hide IsRemainder, Elems, ChecksumSymbols, Polymod;
    ChecksumVerifies(body);
    PolymodIsRemainder(body + ChecksumSymbols(body));
    assert Added(Elems(ZERO), Nulls(7) + [One]) == Nulls(7) + [One] by {
      forall j | 0 <= j < 8 ensures Plus(Elems(ZERO)[j], (Nulls(7) + [One])[j]) == (Nulls(7) + [One])[j] {
        NoneAt(j);
      }
    }
  }

  lemma NoneAt(j: nat)
    requires j < 8
    ensures ElemAt(ZERO, j) == Zero
  {
  }
}
