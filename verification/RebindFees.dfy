/** When a rebind pays the fee it estimates, told from the coins in the wallet (internal/bch/bchwallet.go). */
module RebindFees {
  import opened Bytes
  import opened BchTx
  import opened Script
  import opened BchWallet

  /** What the `k` largest plain coins are worth. */
  function Top(coins: seq<Coin>, k: nat): nat {
    var cs := LargestFirst(Plain(coins));
    Total(cs[..if k <= |cs| then k else |cs|])
  }

  ghost predicate Payable(coins: seq<Coin>) {
    Plain(coins) != [] && Total(Plain(coins)) >= RebindNeed()
  }

  /** The funding is the fewest of the largest coins that reach the need. */
  lemma ChosenIsTop(coins: seq<Coin>)
    requires Payable(coins)
    ensures var k := |Chosen(coins, RebindNeed())|;
      && 0 < k <= |LargestFirst(Plain(coins))| && Total(Chosen(coins, RebindNeed())) == Top(coins, k) >= RebindNeed()
      && forall j :: 0 < j < k ==> Top(coins, j) < RebindNeed()
  {
    hide Total, Plain, LargestFirst;
    LargestFirstFacts(Plain(coins));
    ReachingIsLeast(LargestFirst(Plain(coins)), RebindNeed(), 0);
  }

  /** With `k` funding coins the estimate is met exactly when they and the token coin reach a bound linear in `k`. */
  lemma RebindPaysExactly(coins: seq<Coin>, nft: Coin)
    requires Payable(coins)
    ensures var funding := Chosen(coins, RebindNeed()); var k := |funding|;
      RebindFee(nft, funding) >= EstimateFee(1 + k, 4) <==> nft.value + Top(coins, k) >= 2334 + 296 * k
  {
    hide Total, Chosen, Top;
    ChosenIsTop(coins);
  }

  lemma TopGrows(coins: seq<Coin>, j: nat, k: nat)
    requires j <= k
    ensures Top(coins, j) <= Top(coins, k)
  {
    var cs := LargestFirst(Plain(coins));
    var m, n := if j <= |cs| then j else |cs|, if k <= |cs| then k else |cs|;
    assert cs[..n][..m] == cs[..m];
    TotalGrows(cs[..n], m);
  }

  /** Each further coin is worth no more than any before it. */
  lemma FifthIsSmall(coins: seq<Coin>, k: nat)
    requires 5 <= k <= |LargestFirst(Plain(coins))|
    ensures 4 * (Top(coins, k) - Top(coins, k - 1)) <= Top(coins, k - 1)
  {
    hide Total, LargestFirst, Plain;
    var cs := LargestFirst(Plain(coins));
    var v := cs[k - 1].value;
    TotalNext(cs, k - 1);
    assert cs[0].value >= v && cs[1].value >= v && cs[2].value >= v && cs[3].value >= v;
    FirstFour(cs);
    TopGrows(coins, 4, k - 1);
  }

  lemma FirstFour(cs: seq<Coin>)
    requires |cs| >= 4
    ensures Total(cs[..4]) == cs[0].value + cs[1].value + cs[2].value + cs[3].value
  {
    TotalNext(cs, 0);
    TotalNext(cs, 1);
    TotalNext(cs, 2);
    TotalNext(cs, 3);
    assert cs[..0] == [];
  }

  /** A token coin of exactly token dust: a rebind that needs five or more funding coins never pays its estimate. */
  lemma FiveCoinsNeverPay(coins: seq<Coin>, nft: Coin)
    requires Payable(coins) && nft.value == TOKEN_DUST && |Chosen(coins, RebindNeed())| >= 5
    ensures RebindFee(nft, Chosen(coins, RebindNeed())) < EstimateFee(1 + |Chosen(coins, RebindNeed())|, 4)
  {
    hide Total, Chosen, Top, Plain, LargestFirst;
    ChosenIsTop(coins);
    RebindPaysExactly(coins, nft);
    FifthIsSmall(coins, |Chosen(coins, RebindNeed())|);
  }

  /** A token coin of exactly token dust: whether a rebind pays its estimate, from the wallet's four largest coins. It
      does when two of them reach the need, or three reach a little more, or four a little more when three fall short;
      and in no other case. */
  lemma RebindPaysEstimate(coins: seq<Coin>, nft: Coin)
    requires Payable(coins) && nft.value == TOKEN_DUST
    ensures var funding := Chosen(coins, RebindNeed());
      RebindFee(nft, funding) >= EstimateFee(1 + |funding|, 4)
      <==> Top(coins, 2) >= 1926 || Top(coins, 3) >= 2222 || (Top(coins, 3) < 1926 && Top(coins, 4) >= 2518)
  {
    hide Total, Chosen, Top, Plain, LargestFirst;
    var k := |Chosen(coins, RebindNeed())|;
    ChosenIsTop(coins);
    RebindPaysExactly(coins, nft);
    TopGrows(coins, 1, 2);
    TopGrows(coins, 2, 3);
    TopGrows(coins, 3, 4);
    if k >= 5 {
      FiveCoinsNeverPay(coins, nft);
    }
  }

  /** Ties between coins of one value make no difference: any order by falling value has the same totals. */
  lemma TiesAgree(coins: seq<Coin>, other: seq<Coin>, k: nat)
    requires Descending(other) && |other| == |Plain(coins)| && forall c :: Count(other, c) == Count(Plain(coins), c)
    requires k <= |other|
    ensures Total(other[..k]) == Top(coins, k)
  {
    hide Total, Count, Plain, LargestFirst, Descending;
    var cs := LargestFirst(Plain(coins));
    LargestFirstFacts(Plain(coins));
    PrefixWithin(cs, k);
    PrefixWithin(other, k);
    LargestAreWorthMost(cs, other[..k]);
    LargestAreWorthMost(other, cs[..k]);
  }

  // ---------------------------------------------------------------- a wallet that underpays

  lemma PlainAppend(cs: seq<Coin>, c: Coin)
    ensures Plain(cs + [c]) == if c.token.None? then Plain(cs) + [c] else Plain(cs)
  {
    assert (cs + [c])[..|cs|] == cs;
  }

  lemma {:induction false} AllPlain(cs: seq<Coin>)
    requires forall c :: c in cs ==> c.token.None?
    ensures Plain(cs) == cs
  {
    if cs != [] {
      AllPlain(cs[..|cs| - 1]);
      assert cs == cs[..|cs| - 1] + [cs[|cs| - 1]];
    }
  }

  /** A token coin in front is passed over. */
  lemma {:induction false} TokenPassedOver(nft: Coin, cs: seq<Coin>)
    requires nft.token.Some?
    ensures Plain([nft] + cs) == Plain(cs)
    decreases |cs|
  {
    hide Plain;
    if cs == [] {
      PlainAppend([], nft);
      assert [] + [nft] == [nft] + cs;
    } else {
      var init, c := cs[..|cs| - 1], cs[|cs| - 1];
      TokenPassedOver(nft, init);
      assert [nft] + cs == ([nft] + init) + [c] && cs == init + [c];
      PlainAppend([nft] + init, c);
      PlainAppend(init, c);
    }
  }

  /** `n` coins at the wallet's dust limit. */
  function SmallCoins(txid: Bytes, n: nat): (r: seq<Coin>)
    requires n < 100
    ensures |r| == n && forall c :: c in r ==> c.value == DUST && c.token.None?
  {
    if n == 0 then [] else SmallCoins(txid, n - 1) + [Coin(txid, n, DUST, None)]
  }

  lemma {:induction false} SmallCoinsTotal(txid: Bytes, n: nat)
    requires n < 100
    ensures Total(SmallCoins(txid, n)) == DUST * n
  {
    if n > 0 {
      SmallCoinsTotal(txid, n - 1);
      TotalAppend(SmallCoins(txid, n - 1), Coin(txid, n, DUST, None));
    }
  }

  /** They are already in order. */
  lemma {:induction false} SmallCoinsSorted(txid: Bytes, n: nat)
    requires n < 100
    ensures LargestFirst(SmallCoins(txid, n)) == SmallCoins(txid, n)
  {
    if n > 0 {
      var cs, last := SmallCoins(txid, n - 1), Coin(txid, n, DUST, None);
      SmallCoinsSorted(txid, n - 1);
      assert (cs + [last])[..n - 1] == cs;
      assert cs != [] ==> cs[|cs| - 1] in cs;
    }
  }

  lemma ThreeAreTooFew(txid: Bytes)
    ensures Reaching(SmallCoins(txid, 4), RebindNeed(), 0) == 4
  {
    var cs := SmallCoins(txid, 4);
    SmallCoinsTotal(txid, 3);
    SmallCoinsTotal(txid, 4);
    assert cs[..3] == SmallCoins(txid, 3);
    assert forall k :: 0 <= k <= 3 ==> cs[..k] == cs[..3][..k];
    forall k | 0 <= k <= 3 ensures Total(cs[..k]) < RebindNeed() {
      TotalGrows(cs[..3], k);
    }
    assert Reaching(cs, RebindNeed(), 2) == 4;
    assert Reaching(cs, RebindNeed(), 1) == 4;
  }

  /** The rebind that this wallet builds spends all four coins of 546 satoshis and pays 1638, where its own estimate
      for five inputs is 1972. */
  lemma ManyInputsUnderpay(txid: Bytes, pkh: Hash20, name: Bytes, pub: Bytes)
    ensures var nft := Coin(txid, 0, TOKEN_DUST, Some(TokenInfo(txid, CAP_MUTABLE, [], 0)));
      var coins := [nft] + SmallCoins(txid, 4);
      && Holder(coins, txid) == Some(nft) && Payable(coins) && Chosen(coins, RebindNeed()) == SmallCoins(txid, 4)
      && nft.value + Total(SmallCoins(txid, 4)) < 0x8000_0000_0000_0000
      && var tx := RebindTx(nft, SmallCoins(txid, 4), pkh, name, txid, pub);
         |tx.inputs| == 5
           && nft.value + Total(SmallCoins(txid, 4)) - OutTotal(tx.outputs) == 1638 < 1972 == EstimateFee(5, 4)
  {
    hide Plain, LargestFirst, Reaching, OutTotal, NameOutputs, WithChange;
    var nft := Coin(txid, 0, TOKEN_DUST, Some(TokenInfo(txid, CAP_MUTABLE, [], 0)));
    SmallCoinsTotal(txid, 4);
    TokenPassedOver(nft, SmallCoins(txid, 4));
    AllPlain(SmallCoins(txid, 4));
    SmallCoinsSorted(txid, 4);
    ThreeAreTooFew(txid);
    assert SmallCoins(txid, 4)[..4] == SmallCoins(txid, 4);
    RebindFeeIs(nft, SmallCoins(txid, 4), pkh, name, txid, pub);
  }
}
