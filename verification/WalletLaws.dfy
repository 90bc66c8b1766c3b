/** Which coins a wallet considers, coin by coin (internal/bch/bchwallet.go). */
module WalletLaws {
  import opened Bytes
  import opened BchTx
  import opened BchWallet

  /** The first coin to hold the category, or none does. */
  lemma {:induction false} HolderExactly(coins: seq<Coin>, category: Bytes)
    ensures match Holder(coins, category)
            case None => forall c :: c in coins && c.token.Some? ==> c.token.value.category != category
            case Some(h) =>
              exists i :: 0 <= i < |coins| && coins[i] == h && h.token.Some? && h.token.value.category == category
                && forall j :: 0 <= j < i && coins[j].token.Some? ==> coins[j].token.value.category != category
  {
    if coins != [] && Holder(coins, category).Some? {
      if coins[0].token.Some? && coins[0].token.value.category == category {
        assert coins[0] == Holder(coins, category).value;
      } else {
        HolderExactly(coins[1..], category);
        var h := Holder(coins, category).value;
        var i :| 0 <= i < |coins[1..]| && coins[1..][i] == h
          && forall j :: 0 <= j < i && coins[1..][j].token.Some? ==> coins[1..][j].token.value.category != category;
        assert coins[i + 1] == h;
        assert forall j :: 1 <= j < i + 1 ==> coins[j] == coins[1..][j - 1];
      }
    }
  }

  /** A plain coin at output index 0. */
  predicate Mintable(c: Coin) {
    c.token.None? && c.index == 0
  }

  lemma {:induction false} FirstMintExactly(coins: seq<Coin>)
    ensures match FirstMint(coins)
            case None => forall c :: c in coins ==> !Mintable(c)
            case Some(g) =>
              Mintable(g)
              && exists i :: 0 <= i < |coins| && coins[i] == g && forall j :: 0 <= j < i ==> !Mintable(coins[j])
  {
    if coins != [] && FirstMint(coins).Some? {
      if CanMint(coins[0]) {
        assert coins[0] == FirstMint(coins).value;
      } else {
        FirstMintExactly(coins[1..]);
        var g := FirstMint(coins).value;
        var i :| 0 <= i < |coins[1..]| && coins[1..][i] == g && forall j :: 0 <= j < i ==> !Mintable(coins[1..][j]);
        assert coins[i + 1] == g;
        assert forall j :: 1 <= j < i + 1 ==> coins[j] == coins[1..][j - 1];
      }
    }
  }

  lemma CountAppend(cs: seq<Coin>, last: Coin, c: Coin)
    ensures Count(cs + [last], c) == Count(cs, c) + if last == c then 1 else 0
  {
    assert (cs + [last])[..|cs|] == cs;
  }

  lemma PlainAppend(cs: seq<Coin>, last: Coin)
    ensures Plain(cs + [last]) == if last.token.None? then Plain(cs) + [last] else Plain(cs)
  {
    assert (cs + [last])[..|cs|] == cs;
  }

  lemma NoneCounted(c: Coin)
    ensures Count([], c) == 0 && Plain([]) == []
  {
  }

  /** What a rebind may be funded with: every coin without a token, as often as the wallet lists it. */
  lemma {:induction false} PlainExactly(coins: seq<Coin>, c: Coin)
    ensures Count(Plain(coins), c) == if c.token.None? then Count(coins, c) else 0
  {
    hide Plain, Count;
    NoneCounted(c);
    if coins != [] {
      var init, last := coins[..|coins| - 1], coins[|coins| - 1];
      assert coins == init + [last];
      PlainExactly(init, c);
      PlainAppend(init, last);
      CountAppend(init, last, c);
      CountAppend(Plain(init), last, c);
    }
  }

  predicate OtherPlain(c: Coin, g: Coin) {
    c.token.None? && !(c.txid == g.txid && c.index == g.index)
  }

  /** What a claim may be funded with besides its first coin: every other plain coin, as often as listed. */
  lemma {:induction false} OthersExactly(coins: seq<Coin>, g: Coin, c: Coin)
    ensures Count(Others(coins, g), c) == if OtherPlain(c, g) then Count(coins, c) else 0
  {
    hide Others, Count;
    NoneCounted(c);
    NoOthers(g);
    if coins != [] {
      var init, last := coins[..|coins| - 1], coins[|coins| - 1];
      assert coins == init + [last];
      OthersExactly(init, g, c);
      OthersAppend(init, last, g);
      CountAppend(init, last, c);
      CountAppend(Others(init, g), last, c);
    }
  }

  lemma OthersAppend(cs: seq<Coin>, c: Coin, g: Coin)
    ensures Others(cs + [c], g) == if OtherPlain(c, g) then Others(cs, g) + [c] else Others(cs, g)
  {
    assert (cs + [c])[..|cs|] == cs;
  }

  /** And in the order in which the wallet lists them. */
  lemma {:induction false} OthersInOrder(a: seq<Coin>, b: seq<Coin>, g: Coin)
    ensures Others(a + b, g) == Others(a, g) + Others(b, g)
    decreases |b|
  {
    hide Others;
    if b == [] {
      assert a + b == a;
      NoOthers(g);
    } else {
      var init, last := b[..|b| - 1], b[|b| - 1];
      assert b == init + [last] && a + b == a + init + [last];
      OthersInOrder(a, init, g);
      OthersAppend(a + init, last, g);
      OthersAppend(init, last, g);
    }
  }

  lemma NoOthers(g: Coin)
    ensures Others([], g) == []
  {
  }

  /** The coins of a claim begin with the first one that can mint; without any there are none. */
  lemma MintFundingExactly(coins: seq<Coin>)
    ensures match FirstMint(coins)
            case None => MintFunding(coins) == []
            case Some(g) =>
              && |MintFunding(coins)| > 0 && MintFunding(coins)[0] == g
              && forall c :: Count(MintFunding(coins)[1..], c) == if OtherPlain(c, g) then Count(coins, c) else 0
  {
    var g := FirstMint(coins);
    if g.Some? {
      assert MintFunding(coins)[1..] == Others(coins, g.value);
      forall c {
        OthersExactly(coins, g.value, c);
      }
    }
  }
}
