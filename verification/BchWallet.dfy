/** Coin selection, fees and the claim and rebind transactions (internal/bch/bchwallet.go). Amounts are satoshis. */
module BchWallet {
  import opened Bytes
  import opened LittleEndian
  import opened BchTx
  import opened OpReturn
  import opened Script

  const DUST: nat := 546
  const TOKEN_DUST: nat := 1000
  const FEE_PER_BYTE: nat := 2

  datatype Coin = Coin(txid: Bytes, index: uint32, value: nat, token: Option<TokenInfo>)

  function Total(cs: seq<Coin>): nat {
    if cs == [] then 0 else Total(cs[..|cs| - 1]) + cs[|cs| - 1].value
  }

  lemma {:induction false} TotalJoin(a: seq<Coin>, b: seq<Coin>)
    ensures Total(a + b) == Total(a) + Total(b)
    decreases |b|
  {
    if b == [] {
      assert a + b == a;
    } else {
      assert (a + b)[..|a + b| - 1] == a + b[..|b| - 1];
      TotalJoin(a, b[..|b| - 1]);
    }
  }

  lemma TotalNext(cs: seq<Coin>, i: nat)
    requires i < |cs|
    ensures Total(cs[..i + 1]) == Total(cs[..i]) + cs[i].value
  {
    assert cs[..i + 1][..i] == cs[..i];
  }

  lemma {:induction false} TotalGrows(cs: seq<Coin>, k: nat)
    requires k <= |cs|
    ensures Total(cs[..k]) <= Total(cs)
  {
    TotalJoin(cs[..k], cs[k..]);
    assert cs == cs[..k] + cs[k..];
  }

  function Plain(cs: seq<Coin>): (r: seq<Coin>)
    ensures forall c :: c in r ==> c in cs && c.token.None?
  {
    if cs == [] then []
    else
      var last := cs[|cs| - 1];
      Plain(cs[..|cs| - 1]) + if last.token.None? then [last] else []
  }

  // ---------------------------------------------------------------- piles of coins

  /** How often a coin occurs. */
  function Count(cs: seq<Coin>, c: Coin): nat {
    if cs == [] then 0 else Count(cs[..|cs| - 1], c) + if cs[|cs| - 1] == c then 1 else 0
  }

  lemma {:induction false} CountJoin(a: seq<Coin>, b: seq<Coin>, c: Coin)
    ensures Count(a + b, c) == Count(a, c) + Count(b, c)
    decreases |b|
  {
    if b == [] {
      assert a + b == a;
    } else {
      assert (a + b)[..|a + b| - 1] == a + b[..|b| - 1];
      CountJoin(a, b[..|b| - 1], c);
    }
  }

  lemma {:induction false} CountFinds(cs: seq<Coin>, c: Coin) returns (i: nat)
    requires Count(cs, c) > 0
    ensures i < |cs| && cs[i] == c
  {
    i := |cs| - 1;
    if cs[i] != c {
      i := CountFinds(cs[..|cs| - 1], c);
    }
  }

  /** Every coin of `a` is among those of `b`, as often. */
  ghost predicate Within(a: seq<Coin>, b: seq<Coin>) {
    forall c :: Count(a, c) <= Count(b, c)
  }

  lemma PrefixWithin(cs: seq<Coin>, k: nat)
    requires k <= |cs|
    ensures Within(cs[..k], cs)
  {
    forall c ensures Count(cs[..k], c) <= Count(cs, c) {
      CountJoin(cs[..k], cs[k..], c);
      assert cs == cs[..k] + cs[k..];
    }
  }

  // ---------------------------------------------------------------- largest first

  ghost predicate Descending(cs: seq<Coin>) {
    forall i, j :: 0 <= i < j < |cs| ==> cs[i].value >= cs[j].value
  }

  ghost predicate AtLeast(cs: seq<Coin>, v: nat) {
    forall i :: 0 <= i < |cs| ==> cs[i].value >= v
  }

  function Insert(c: Coin, cs: seq<Coin>): (r: seq<Coin>)
    requires Descending(cs)
    ensures Descending(r) && |r| == |cs| + 1
    ensures forall v: nat :: AtLeast(cs, v) && c.value >= v ==> AtLeast(r, v)
    decreases |cs|
  {
    if cs == [] || cs[|cs| - 1].value >= c.value then cs + [c]
    else
      assert AtLeast(cs[..|cs| - 1], cs[|cs| - 1].value);
      Insert(c, cs[..|cs| - 1]) + [cs[|cs| - 1]]
  }

  lemma {:induction false} InsertFacts(c: Coin, cs: seq<Coin>)
    requires Descending(cs)
    ensures Total(Insert(c, cs)) == Total(cs) + c.value
    ensures forall d :: Count(Insert(c, cs), d) == Count(cs, d) + if d == c then 1 else 0
    decreases |cs|
  {
    if cs == [] || cs[|cs| - 1].value >= c.value {
      assert (cs + [c])[..|cs|] == cs;
    } else {
      var init, z := cs[..|cs| - 1], cs[|cs| - 1];
      InsertFacts(c, init);
      assert (Insert(c, init) + [z])[..|cs|] == Insert(c, init);
    }
  }

  /** The coins by falling value. */
  function LargestFirst(cs: seq<Coin>): (r: seq<Coin>)
    ensures Descending(r) && |r| == |cs|
  {
    if cs == [] then [] else Insert(cs[|cs| - 1], LargestFirst(cs[..|cs| - 1]))
  }

  /** Sorting loses and invents nothing. */
  lemma {:induction false} LargestFirstFacts(cs: seq<Coin>)
    ensures Total(LargestFirst(cs)) == Total(cs)
    ensures forall d :: Count(LargestFirst(cs), d) == Count(cs, d)
  {
    if cs != [] {
      LargestFirstFacts(cs[..|cs| - 1]);
      InsertFacts(cs[|cs| - 1], LargestFirst(cs[..|cs| - 1]));
    }
  }

  function Without(cs: seq<Coin>, i: nat): (r: seq<Coin>)
    requires i < |cs|
    ensures |r| == |cs| - 1
  {
    cs[..i] + cs[i + 1..]
  }

  lemma WithoutTotal(cs: seq<Coin>, i: nat)
    requires i < |cs|
    ensures Total(Without(cs, i)) + cs[i].value == Total(cs)
  {
    hide Total;
    assert cs == cs[..i + 1] + cs[i + 1..];
    TotalNext(cs, i);
    TotalJoin(cs[..i + 1], cs[i + 1..]);
    TotalJoin(cs[..i], cs[i + 1..]);
  }

  lemma WithoutCount(cs: seq<Coin>, i: nat, c: Coin)
    requires i < |cs|
    ensures Count(Without(cs, i), c) + (if c == cs[i] then 1 else 0) == Count(cs, c)
  {
    assert cs == cs[..i + 1] + cs[i + 1..];
    assert cs[..i + 1][..i] == cs[..i];
    CountJoin(cs[..i + 1], cs[i + 1..], c);
    CountJoin(cs[..i], cs[i + 1..], c);
  }

  lemma WithoutWithin(cs: seq<Coin>, i: nat, init: seq<Coin>, z: Coin)
    requires i < |cs| && cs[i] == z && Within(cs, init + [z])
    ensures Within(Without(cs, i), init)
  {
    forall c ensures Count(Without(cs, i), c) <= Count(init, c) {
      WithoutCount(cs, i, c);
      assert (init + [z])[..|init|] == init;
      assert Count(cs, c) <= Count(init + [z], c);
    }
  }

  lemma AbsentWithin(cs: seq<Coin>, init: seq<Coin>, z: Coin)
    requires Count(cs, z) == 0 && Within(cs, init + [z])
    ensures Within(cs, init)
  {
    forall c ensures Count(cs, c) <= Count(init, c) {
      assert (init + [z])[..|init|] == init;
      assert Count(cs, c) <= Count(init + [z], c);
    }
  }

  /** No choice of as many coins is worth more than the largest ones. */
  lemma {:induction false} LargestAreWorthMost(sorted: seq<Coin>, other: seq<Coin>)
    requires Descending(sorted) && Within(other, sorted)
    ensures |other| <= |sorted| && Total(other) <= Total(sorted[..|other|])
    decreases |sorted|
  {
    hide Count, Total, Within, Without;
    if sorted == [] {
      EmptyWithin(other);
    } else {
      var init, z := sorted[..|sorted| - 1], sorted[|sorted| - 1];
      assert sorted == init + [z];
      if Count(other, z) > 0 {
        var i := CountFinds(other, z);
        WithoutWithin(other, i, init, z);
        WithoutTotal(other, i);
        LargestAreWorthMost(init, Without(other, i));
        NextLargest(sorted, |other| - 1);
        assert init[..|other| - 1] == sorted[..|other| - 1];
      } else {
        AbsentWithin(other, init, z);
        LargestAreWorthMost(init, other);
        assert init[..|other|] == sorted[..|other|];
      }
    }
  }

  lemma EmptyWithin(other: seq<Coin>)
    requires Within(other, [])
    ensures other == []
  {
    assert other != [] ==> Count(other, other[|other| - 1]) > Count([], other[|other| - 1]);
  }

  lemma NextLargest(sorted: seq<Coin>, n: nat)
    requires Descending(sorted) && n < |sorted|
    ensures Total(sorted[..n + 1]) >= Total(sorted[..n]) + sorted[|sorted| - 1].value
  {
    TotalNext(sorted, n);
  }

  // ---------------------------------------------------------------- funding

  method FilterPlain(coins: seq<Coin>) returns (plain: seq<Coin>)
    ensures plain == Plain(coins)
  {
    plain := [];
    for i := 0 to |coins|
      invariant plain == Plain(coins[..i])
    {
      assert coins[..i + 1][..i] == coins[..i];
      if coins[i].token.None? {
        plain := plain + [coins[i]];
      }
    }
    assert coins[..|coins|] == coins;
  }

  /** `sel` pays for `need` with plain coins, each used once. */
  ghost predicate Funds(coins: seq<Coin>, need: int, sel: seq<Coin>) {
    sel != [] && Within(sel, Plain(coins)) && Total(sel) >= need
  }

  /** The length, from `k` on, of the shortest non-empty start of a pile that reaches `need`; all of it if none does. */
  function Reaching(cs: seq<Coin>, need: int, k: nat): (r: nat)
    requires k <= |cs|
    ensures k <= r <= |cs|
    decreases |cs| - k
  {
    if k == |cs| || (k > 0 && Total(cs[..k]) >= need) then k else Reaching(cs, need, k + 1)
  }

  lemma {:induction false} ReachingIsLeast(cs: seq<Coin>, need: int, k: nat)
    requires k <= |cs| && cs != [] && Total(cs) >= need
    ensures var r := Reaching(cs, need, k);
      r > 0 && Total(cs[..r]) >= need && forall j :: k <= j < r && 0 < j ==> Total(cs[..j]) < need
    decreases |cs| - k
  {
    if k == |cs| {
      assert cs[..k] == cs;
    } else if k == 0 || Total(cs[..k]) < need {
      ReachingIsLeast(cs, need, k + 1);
    }
  }

  lemma ReachingStep(cs: seq<Coin>, need: int, k: nat)
    requires k <= |cs|
    ensures Reaching(cs, need, k)
         == if k == |cs| || (k > 0 && Total(cs[..k]) >= need) then k else Reaching(cs, need, k + 1)
  {
  }

  lemma TotalOfNone()
    ensures Total([]) == 0
  {
  }

  /** What selection takes: the largest plain coins, up to the first that makes the total reach `need`. */
  function Chosen(coins: seq<Coin>, need: int): seq<Coin> {
    var cs := LargestFirst(Plain(coins));
    cs[..Reaching(cs, need, 0)]
  }

  /** Succeeds exactly when the plain coins can pay, and then with as few of them as possible: the largest ones. */
  method SelectFunding(coins: seq<Coin>, need: int) returns (r: Option<(seq<Coin>, nat)>)
    ensures r.Some? <==> Plain(coins) != [] && Total(Plain(coins)) >= need
    ensures r.Some? ==> r.value.0 == Chosen(coins, need)
    ensures r.Some? ==> Funds(coins, need, r.value.0) && r.value.1 == Total(r.value.0)
    ensures r.Some? ==> forall other :: Funds(coins, need, other) ==> |r.value.0| <= |other|
  {
    hide Plain, Funds, Descending, Count, Reaching, Total;
    var plain := FilterPlain(coins);
    LargestFirstFacts(plain);
    plain := LargestFirst(plain);
    var selected: seq<Coin>, total := [], 0;
    TotalOfNone();
    for i := 0 to |plain|
      invariant selected == plain[..i] && total == Total(selected)
      invariant Reaching(plain, need, 0) == Reaching(plain, need, i)
      invariant i > 0 ==> total < need
    {
      TotalNext(plain, i);
      ReachingStep(plain, need, i);
      selected, total := selected + [plain[i]], total + plain[i].value;
      assert selected == plain[..i + 1];
      if total >= need {
        ReachingStep(plain, need, i + 1);
        FirstCoverIsFewest(coins, need, plain, i + 1);
        return Some((selected, total));
      }
    }
    assert plain[..|plain|] == plain;
    r := None;
  }

  lemma FirstCoverIsFewest(coins: seq<Coin>, need: int, sorted: seq<Coin>, k: nat)
    requires Descending(sorted) && forall c :: Count(sorted, c) == Count(Plain(coins), c)
    requires 0 < k <= |sorted| && Total(sorted[..k]) >= need && (k > 1 ==> Total(sorted[..k - 1]) < need)
    ensures Funds(coins, need, sorted[..k])
    ensures Total(sorted) >= need
    ensures forall other :: Funds(coins, need, other) ==> k <= |other|
  {
    hide Total, Count, Descending, Plain;
    PrefixWithin(sorted, k);
    TotalGrows(sorted, k);
    forall other | Funds(coins, need, other) ensures k <= |other| {
      LargestAreWorthMost(sorted, other);
      if |other| < k {
        assert sorted[..k - 1][..|other|] == sorted[..|other|];
        TotalGrows(sorted[..k - 1], |other|);
      }
    }
  }

  // ---------------------------------------------------------------- a coin that may mint

  function EstimateFee(numIn: nat, numOut: nat): nat {
    (10 + numIn * 148 + numOut * 34 + 100) * FEE_PER_BYTE
  }

  predicate CanMint(c: Coin) {
    c.token.None? && c.index == 0
  }

  /** The other plain coins, in the order given. */
  function Others(coins: seq<Coin>, g: Coin): (r: seq<Coin>)
    ensures forall c :: c in r ==> c in coins && c.token.None? && !(c.txid == g.txid && c.index == g.index)
  {
    if coins == [] then []
    else
      var last := coins[|coins| - 1];
      Others(coins[..|coins| - 1], g)
      + if last.token.None? && !(last.txid == g.txid && last.index == g.index) then [last] else []
  }

  predicate Covers(sel: seq<Coin>, outValue: nat, numOut: nat) {
    Total(sel) >= outValue + EstimateFee(|sel|, numOut)
  }

  /** `sel` is the shortest start of `cands` that pays for itself. */
  ghost predicate FirstCover(cands: seq<Coin>, outValue: nat, numOut: nat, sel: seq<Coin>) {
    && 0 < |sel| <= |cands| && sel == cands[..|sel|] && Covers(sel, outValue, numOut)
    && forall k :: 0 < k < |sel| ==> !Covers(cands[..k], outValue, numOut)
  }

  /** The first coin that may mint. */
  function FirstMint(coins: seq<Coin>): (g: Option<Coin>)
    ensures g.Some? ==> g.value in coins && CanMint(g.value)
    ensures g.None? ==> forall c :: c in coins ==> !CanMint(c)
  {
    if coins == [] then None else if CanMint(coins[0]) then Some(coins[0]) else FirstMint(coins[1..])
  }

  /** The coins a claim may spend, in the order it tries them. */
  function MintFunding(coins: seq<Coin>): seq<Coin> {
    match FirstMint(coins) case None => [] case Some(g) => [g] + Others(coins, g)
  }

  method FindGenesis(coins: seq<Coin>) returns (g: Option<Coin>)
    ensures g == FirstMint(coins)
  {
    for i := 0 to |coins|
      invariant FirstMint(coins) == FirstMint(coins[i..])
    {
      if coins[i].token.None? && coins[i].index == 0 {
        return Some(coins[i]);
      }
      assert coins[i..][1..] == coins[i + 1..];
    }
    g := None;
  }

  /** Starts with a coin that spends output 0 and adds plain coins until outputs and fee are paid for. */
  method SelectFundingGenesis(coins: seq<Coin>, outValue: nat, numOut: nat) returns (r: Option<(seq<Coin>, nat)>)
    ensures r.Some? ==> FirstCover(MintFunding(coins), outValue, numOut, r.value.0) && r.value.1 == Total(r.value.0)
    ensures r.None? ==> forall k :: 0 < k <= |MintFunding(coins)| ==> !Covers(MintFunding(coins)[..k], outValue, numOut)
  {
    hide Others, Total, EstimateFee, FirstMint;
    var genesis := FindGenesis(coins);
    if genesis.None? {
      return None;
    }
    assert MintFunding(coins)[..1] == [genesis.value];
    TotalAppend([], genesis.value);
    assert [] + [genesis.value] == [genesis.value];
    if genesis.value.value >= outValue + EstimateFee(1, numOut) {
      return Some(([genesis.value], genesis.value.value));
    }
    r := AddFunding(coins, genesis.value, outValue, numOut);
  }

  /** Adds the other plain coins one by one. */
  method AddFunding(coins: seq<Coin>, g: Coin, outValue: nat, numOut: nat) returns (r: Option<(seq<Coin>, nat)>)
    requires !Covers([g], outValue, numOut)
    ensures r.Some? ==> FirstCover([g] + Others(coins, g), outValue, numOut, r.value.0) && r.value.1 == Total(r.value.0)
    ensures r.None? ==>
      forall k :: 0 < k <= 1 + |Others(coins, g)| ==> !Covers(([g] + Others(coins, g))[..k], outValue, numOut)
  {
    hide Others, Total, EstimateFee;
    var selected, total := [g], g.value;
    ghost var cands := [g] + Others(coins, g);
    assert cands[..1] == selected;
    TotalAppend([], g);
    assert [] + [g] == selected && coins[..0] == [];
    NoOthers(g);
    for i := 0 to |coins|
      invariant selected == [g] + Others(coins[..i], g) && total == Total(selected)
      invariant selected <= cands
      invariant forall k :: 0 < k <= |selected| ==> !Covers(cands[..k], outValue, numOut)
    {
      var u := coins[i];
      OthersStep(coins, g, i);
      if u.token.Some? || (u.txid == g.txid && u.index == g.index) {
        continue;
      }
      OthersGrow(coins, g, i + 1);
      TotalAppend(selected, u);
      selected, total := selected + [u], total + u.value;
      assert cands[..|selected|] == selected;
      if total >= outValue + EstimateFee(|selected|, numOut) {
        return Some((selected, total));
      }
    }
    assert coins[..|coins|] == coins;
    r := None;
  }

  lemma TotalAppend(cs: seq<Coin>, u: Coin)
    ensures Total(cs + [u]) == Total(cs) + u.value && Total([]) == 0
  {
    assert (cs + [u])[..|cs|] == cs;
  }

  lemma NoOthers(g: Coin)
    ensures Others([], g) == []
  {
  }

  lemma OthersStep(coins: seq<Coin>, g: Coin, i: nat)
    requires i < |coins|
    ensures Others(coins[..i + 1], g) == Others(coins[..i], g) +
      if coins[i].token.None? && !(coins[i].txid == g.txid && coins[i].index == g.index) then [coins[i]] else []
  {
    assert coins[..i + 1][..i] == coins[..i];
  }

  lemma {:induction false} OthersGrow(coins: seq<Coin>, g: Coin, i: nat)
    requires i <= |coins|
    ensures Others(coins[..i], g) <= Others(coins, g)
    decreases |coins|
  {
    if i < |coins| {
      OthersGrow(coins[..|coins| - 1], g, i);
      assert coins[..|coins| - 1][..i] == coins[..i];
    } else {
      assert coins[..i] == coins;
    }
  }

  /** What a claim spends: plain coins only, the first at output index 0 and spent once. */
  lemma MintFundingFacts(coins: seq<Coin>, outValue: nat, numOut: nat, sel: seq<Coin>)
    requires FirstCover(MintFunding(coins), outValue, numOut, sel)
    ensures CanMint(sel[0]) && forall c :: c in sel ==> c in coins && c.token.None?
    ensures forall i :: 0 < i < |sel| ==> !(sel[i].txid == sel[0].txid && sel[i].index == sel[0].index)
  {
    var g := FirstMint(coins).value;
    forall i | 0 < i < |sel| ensures sel[i] in Others(coins, g) {
      assert sel[i] == Others(coins, g)[i - 1];
    }
  }

  lemma NoCoins(g: Coin)
    ensures Total([]) == 0 && Plain([]) == [] && Others([], g) == []
  {
  }

  lemma NothingAdded(cs: seq<Coin>)
    ensures cs + [] == cs
  {
  }

  lemma {:induction false} OthersTotal(coins: seq<Coin>, g: Coin)
    ensures Total(Others(coins, g)) <= Total(coins)
    ensures g in coins ==> Total(Others(coins, g)) + g.value <= Total(coins)
  {
    NoCoins(g);
    if coins != [] {
      hide Total;
      var init, last := coins[..|coins| - 1], coins[|coins| - 1];
      assert coins == init + [last];
      OthersTotal(init, g);
      TotalAppend(init, last);
      TotalAppend(Others(init, g), last);
      NothingAdded(Others(init, g));
    }
  }

  lemma MintFundingTotal(coins: seq<Coin>, sel: seq<Coin>)
    requires sel <= MintFunding(coins)
    ensures Total(sel) <= Total(coins)
  {
    hide Total, Others, FirstMint;
    var cands := MintFunding(coins);
    NoCoins(Coin([], 0, 0, None));
    TotalGrows(cands, |sel|);
    assert sel == cands[..|sel|];
    if FirstMint(coins).Some? {
      var g := FirstMint(coins).value;
      OthersTotal(coins, g);
      TotalJoin([g], Others(coins, g));
      TotalAppend([], g);
      assert [] + [g] == [g];
      assert Total(cands) <= Total(coins);
    }
  }

  lemma {:induction false} PlainTotal(coins: seq<Coin>, held: Coin)
    ensures Total(Plain(coins)) <= Total(coins)
    ensures held in coins && held.token.Some? ==> Total(Plain(coins)) + held.value <= Total(coins)
  {
    NoCoins(held);
    if coins != [] {
      hide Total;
      var init, last := coins[..|coins| - 1], coins[|coins| - 1];
      assert coins == init + [last];
      PlainTotal(init, held);
      TotalAppend(init, last);
      TotalAppend(Plain(init), last);
      NothingAdded(Plain(init));
    }
  }

  lemma FundsTotal(coins: seq<Coin>, need: int, sel: seq<Coin>)
    requires Funds(coins, need, sel)
    ensures Total(sel) <= Total(Plain(coins))
  {
    var sorted := LargestFirst(Plain(coins));
    LargestFirstFacts(Plain(coins));
    LargestAreWorthMost(sorted, sel);
    TotalGrows(sorted, |sel|);
  }

  // ---------------------------------------------------------------- claims and rebinds

  function InputsOf(cs: seq<Coin>): (r: seq<TxInput>)
    ensures |r| == |cs|
  {
    seq(|cs|, i requires 0 <= i < |cs| => TxInput(cs[i].txid, cs[i].index, 0xffff_ffff))
  }

  function OutTotal(os: seq<TxOutput>): int {
    if os == [] then 0 else OutTotal(os[..|os| - 1]) + os[|os| - 1].value
  }

  /** The name token, the announcement and the marker payment. */
  function NameOutputs(pkh: Hash20, category: Bytes, tag: Bytes, name: Bytes, pub: Bytes): (r: seq<TxOutput>)
    ensures |r| == 3
  {
    [ TxOutput(TOKEN_DUST, P2pkhScript(pkh), Some(TokenInfo(category, CAP_MUTABLE, Hash160(pub), 0))),
      TxOutput(0, OpReturnScript([tag, name, pub]), None),
      TxOutput(DUST, MarkerScript(name), None) ]
  }

  /** Change below the dust limit is left to the fee. */
  function WithChange(outputs: seq<TxOutput>, change: int, pkh: Hash20): seq<TxOutput>
    requires change < 0x8000_0000_0000_0000
  {
    if change >= DUST then outputs + [TxOutput(change, P2pkhScript(pkh), None)] else outputs
  }

  lemma OutTotalAppend(os: seq<TxOutput>, o: TxOutput)
    ensures OutTotal(os + [o]) == OutTotal(os) + o.value
  {
    assert (os + [o])[..|os|] == os;
  }

  lemma NameOutputsTotal(pkh: Hash20, category: Bytes, tag: Bytes, name: Bytes, pub: Bytes)
    ensures OutTotal(NameOutputs(pkh, category, tag, name, pub)) == TOKEN_DUST + DUST
  {
    var os := NameOutputs(pkh, category, tag, name, pub);
    assert os == [] + [os[0]] + [os[1]] + [os[2]];
    OutTotalAppend([], os[0]);
    OutTotalAppend([] + [os[0]], os[1]);
    OutTotalAppend([] + [os[0]] + [os[1]], os[2]);
  }

  lemma ChangeTotal(outputs: seq<TxOutput>, change: int, pkh: Hash20)
    requires change < 0x8000_0000_0000_0000
    ensures OutTotal(WithChange(outputs, change, pkh)) == OutTotal(outputs) + if change >= DUST then change else 0
  {
    if change >= DUST {
      OutTotalAppend(outputs, TxOutput(change, P2pkhScript(pkh), None));
    }
  }

  function ClaimChange(spent: seq<Coin>): int {
    Total(spent) - (TOKEN_DUST + DUST) - EstimateFee(|spent|, 4)
  }

  /** The claim made from the coins it spends. */
  function ClaimTx(spent: seq<Coin>, pkh: Hash20, name: Bytes, pub: Bytes): Transaction
    requires spent != [] && Total(spent) < 0x8000_0000_0000_0000
  {
    var outputs := NameOutputs(pkh, spent[0].txid, FN_CLAIM, name, pub);
    Transaction(2, InputsOf(spent), WithChange(outputs, ClaimChange(spent), pkh), 0)
  }

  /** Mints a mutable name token to the wallet itself, bound to the owner's key. The fee is the estimate for the
      inputs spent and four outputs, plus less than the dust limit. */
  method BuildClaimTx(coins: seq<Coin>, pkh: Hash20, name: Bytes, ownerPub: Bytes)
      returns (tx: Option<Transaction>, ghost spent: seq<Coin>)
    requires Total(coins) < 0x8000_0000_0000_0000
    ensures tx.Some? ==>
      && FirstCover(MintFunding(coins), TOKEN_DUST + DUST, 4, spent) && Total(spent) <= Total(coins)
      && tx.value == ClaimTx(spent, pkh, name, ownerPub)
      && EstimateFee(|spent|, 4) <= Total(spent) - OutTotal(tx.value.outputs) < EstimateFee(|spent|, 4) + DUST
    ensures tx.None? ==>
      forall k :: 0 < k <= |MintFunding(coins)| ==> !Covers(MintFunding(coins)[..k], TOKEN_DUST + DUST, 4)
  {
    hide NameOutputs, MintFunding, OutTotal, Total;
    spent := [];
    var funding := SelectFundingGenesis(coins, TOKEN_DUST + DUST, 4);
    if funding.None? {
      return None, spent;
    }
    var (selected, total) := funding.value;
    spent := selected;
    MintFundingTotal(coins, selected);
    var category := selected[0].txid;
    var outputs := NameOutputs(pkh, category, FN_CLAIM, name, ownerPub);
    NameOutputsTotal(pkh, category, FN_CLAIM, name, ownerPub);
    var change: int := total - (TOKEN_DUST + DUST) - EstimateFee(|selected|, 4);
    ChangeTotal(outputs, change, pkh);
    if change >= DUST {
      outputs := outputs + [TxOutput(change, P2pkhScript(pkh), None)];
    }
    tx := Some(Transaction(2, InputsOf(selected), outputs, 0));
  }

  /** The first coin that holds a token of the category. */
  function Holder(coins: seq<Coin>, category: Bytes): (r: Option<Coin>)
    ensures r.Some? ==> r.value in coins && r.value.token.Some? && r.value.token.value.category == category
    ensures r.None? ==> forall c :: c in coins && c.token.Some? ==> c.token.value.category != category
  {
    if coins == [] then None
    else if coins[0].token.Some? && coins[0].token.value.category == category then Some(coins[0])
    else Holder(coins[1..], category)
  }

  method FindNFT(coins: seq<Coin>, category: Bytes) returns (r: Option<Coin>)
    ensures r == Holder(coins, category)
  {
    for i := 0 to |coins|
      invariant Holder(coins, category) == Holder(coins[i..], category)
    {
      if coins[i].token.Some? && coins[i].token.value.category == category {
        return Some(coins[i]);
      }
      assert coins[i..][1..] == coins[i + 1..];
    }
    r := None;
  }

  function RebindNeed(): nat {
    DUST + EstimateFee(3, 4)
  }

  function RebindChange(nft: Coin, funding: seq<Coin>): int {
    nft.value + Total(funding) - TOKEN_DUST - DUST - EstimateFee(1 + |funding|, 4)
  }

  /** What a rebind pays. */
  function RebindFee(nft: Coin, funding: seq<Coin>): int {
    var change := RebindChange(nft, funding);
    nft.value + Total(funding) - TOKEN_DUST - DUST - if change >= DUST then change else 0
  }

  /** The rebind made from the token coin and its funding. */
  function RebindTx(nft: Coin, funding: seq<Coin>, pkh: Hash20, name: Bytes, category: Bytes, pub: Bytes): Transaction
    requires nft.value + Total(funding) < 0x8000_0000_0000_0000
  {
    Transaction(2, InputsOf([nft] + funding),
                WithChange(NameOutputs(pkh, category, FN_REBIND, name, pub), RebindChange(nft, funding), pkh), 0)
  }

  lemma RebindFeeIs(nft: Coin, funding: seq<Coin>, pkh: Hash20, name: Bytes, category: Bytes, pub: Bytes)
    requires nft.value + Total(funding) < 0x8000_0000_0000_0000
    ensures var tx := RebindTx(nft, funding, pkh, name, category, pub);
      nft.value + Total(funding) - OutTotal(tx.outputs) == RebindFee(nft, funding)
  {
    hide NameOutputs, OutTotal, Total, WithChange;
    NameOutputsTotal(pkh, category, FN_REBIND, name, pub);
    ChangeTotal(NameOutputs(pkh, category, FN_REBIND, name, pub), RebindChange(nft, funding), pkh);
  }

  /** Spends the name token and binds it to a new owner's key. Only the token coin and the largest plain coins are
      spent, and the inputs exceed the outputs by something positive, less than the estimate plus the dust limit. */
  method BuildRebindTx(coins: seq<Coin>, pkh: Hash20, name: Bytes, category: Bytes, newOwnerPub: Bytes)
      returns (tx: Option<Transaction>)
    requires Total(coins) < 0x8000_0000_0000_0000
    ensures tx.Some? <==> Holder(coins, category).Some? && Plain(coins) != [] && Total(Plain(coins)) >= RebindNeed()
    ensures tx.Some? ==>
      var nft, funding := Holder(coins, category).value, Chosen(coins, RebindNeed());
      && Funds(coins, RebindNeed(), funding) && nft.value + Total(funding) <= Total(coins)
      && tx.value == RebindTx(nft, funding, pkh, name, category, newOwnerPub)
      && nft.value + Total(funding) - OutTotal(tx.value.outputs) == RebindFee(nft, funding)
      && 0 < RebindFee(nft, funding) < EstimateFee(1 + |funding|, 4) + DUST
  {
    hide NameOutputs, OutTotal, Total, Plain, Within, Chosen, Holder;
    var nft := FindNFT(coins, category);
    if nft.None? {
      return None;
    }
    var found := SelectFunding(coins, DUST + EstimateFee(3, 4));
    if found.None? {
      return None;
    }
    var (selected, fundingTotal) := found.value;
    FundsTotal(coins, RebindNeed(), selected);
    PlainTotal(coins, nft.value);
    RebindFeeIs(nft.value, selected, pkh, name, category, newOwnerPub);
    var outputs := NameOutputs(pkh, category, FN_REBIND, name, newOwnerPub);
    var change: int := nft.value.value + fundingTotal - TOKEN_DUST - DUST - EstimateFee(1 + |selected|, 4);
    if change >= DUST {
      outputs := outputs + [TxOutput(change, P2pkhScript(pkh), None)];
    }
    tx := Some(Transaction(2, InputsOf([nft.value] + selected), outputs, 0));
  }
}
