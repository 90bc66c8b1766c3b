/** What name resolution guarantees: independence of history order and of safe truncation, custody, authority, and
    that a built claim resolves to its owner (internal/bch/registry_bch.go, internal/bch/bchwallet.go). */
module NameResolution {
  import opened Bytes
  import opened BchTx
  import opened RawTx
  import opened OpReturn
  import opened Script
  import opened Ordering
  import opened BchWallet
  import opened Registry

  // ---------------------------------------------------------------- order and truncation

  /** The same answer, as far as the chain can tell: equal owners are equal under their hash. */
  ghost predicate SameOwner(a: Lookup<Bytes>, b: Lookup<Bytes>) {
    match a
    case Found(x) => b.Found? && Hash160(x) == Hash160(b.value)
    case NotFound => b.NotFound?
    case Truncated => b.Truncated?
    case Failed => b.Failed?
  }

  lemma WinnerIgnoresOrder(l: Ledger, name: Bytes, minConf: int, a: seq<Item>, b: seq<Item>, truncated: bool)
    requires forall h :: h in a <==> h in b
    ensures Winner(l, name, minConf, a, truncated) == Winner(l, name, minConf, b, truncated)
  {
    hide Revealed, Best, ParseTx, CategoryOf;
    BestIgnoresOrder(Revealed(l, name, minConf), a, b);
  }

  lemma BindingsIgnoreOrder(rv: Reveal, a: seq<Item>, b: seq<Item>, k: Bytes)
    requires forall h :: h in a <==> h in b
    ensures k in Bindings(rv, a) <==> k in Bindings(rv, b)
    ensures k in Bindings(rv, a) ==> Hash160(Bindings(rv, a)[k]) == Hash160(Bindings(rv, b)[k])
  {
    hide Bindings;
    BindingsExactly(rv, a, k);
    BindingsExactly(rv, b, k);
  }

  /** Scanning the same entries in any order gives the same winner and the same owner. */
  lemma ResolutionIgnoresOrder(l: Ledger, name: Bytes, minConf: int, a: seq<Item>, b: seq<Item>, truncated: bool)
    requires forall h :: h in a <==> h in b
    ensures Winner(l, name, minConf, a, truncated) == Winner(l, name, minConf, b, truncated)
    ensures SameOwner(OwnerIn(l, name, minConf, a, truncated), OwnerIn(l, name, minConf, b, truncated))
  {
    hide Revealed, Commitment, Bindings, Winner;
    WinnerIgnoresOrder(l, name, minConf, a, b, truncated);
    var winner := Winner(l, name, minConf, a, truncated);
    if winner.Found? {
      var c := Commitment(l, winner.value.0.txid, winner.value.1);
      if c.Found? {
        BindingsIgnoreOrder(Revealed(l, name, minConf), a, b, c.value);
      }
    }
  }

  /** Confirmed entries come in order of height; unconfirmed ones may follow. */
  ghost predicate Ascending(h: seq<Item>) {
    forall i, j :: 0 <= i < j < |h| && h[j].height > 0 ==> h[i].height <= h[j].height
  }

  lemma NotLower(h: seq<Item>, k: nat, i: nat)
    requires Ascending(h) && k <= i < |h| && h[i].height > 0
    ensures h[k].height <= h[i].height
  {
  }

  /** A claim in the same block as `w` with a smaller transaction id. */
  predicate Displaces(rv: Reveal, w: Item, e: Item) {
    Claims(rv, e) && e.height == w.height && Before(e.txid, w.txid)
  }

  /** A history cut off after `k` entries has the same winner as all of it exactly when no entry that was dropped is a
      claim in the winner's own block with a smaller transaction id. */
  lemma TruncationExactly(rv: Reveal, h: seq<Item>, k: nat)
    requires k <= |h| && Ascending(h) && (forall e :: e in h && rv(e).Some? ==> e.height > 0)
    requires Best(rv, h[..k]).Some?
    ensures Best(rv, h) == Best(rv, h[..k]) <==> forall e :: e in h[k..] ==> !Displaces(rv, Best(rv, h[..k]).value, e)
  {
    hide Best, Ascending, Before;
    BestIsEarliest(rv, h[..k]);
    BestIsEarliest(rv, h);
    var w := Best(rv, h[..k]).value;
    assert h == h[..k] + h[k..];
    var j :| 0 <= j < k && h[j] == w;
    forall e | e in h && Claims(rv, e) ensures e in h[k..] || e == w || Earlier(w, e) {
    }
    forall e | e in h[k..] && Claims(rv, e) ensures Earlier(e, w) <==> Displaces(rv, w, e) {
      var i :| k <= i < |h| && h[i] == e;
      NotLower(h, j, i);
    }
    var b := Best(rv, h).value;
    EarlierTotal(w, b);
    forall e | e in h && Claims(rv, e) ensures Earlier(w, e) ==> !Earlier(e, w) {
      EarlierTotal(w, e);
    }
  }

  /** None is when the first entry dropped is in a later block than the winner. */
  lemma BuriedClaimStays(rv: Reveal, h: seq<Item>, k: nat, w: Item)
    requires k < |h| && Ascending(h) && w.height < h[k].height && (forall e :: e in h && rv(e).Some? ==> e.height > 0)
    ensures forall e :: e in h[k..] ==> !Displaces(rv, w, e)
  {
    forall e | e in h[k..] && Claims(rv, e) ensures w.height < e.height {
      var i :| k <= i < |h| && h[i] == e;
      NotLower(h, k, i);
    }
  }

  /** A lookup over a truncated history that finds an owner agrees with the lookup over all of it, when none of the
      claims dropped displaces the winner. */
  lemma SafeTruncation(l: Ledger, name: Bytes, minConf: int, h: seq<Item>, k: nat)
    requires k <= |h| && Ascending(h) && !Unfetched(l, h, minConf)
    requires OwnerIn(l, name, minConf, h[..k], true).Found?
    requires var rv := Revealed(l, name, minConf);
      forall e :: e in h[k..] ==> !Displaces(rv, Best(rv, h[..k]).value, e)
    ensures SameOwner(OwnerIn(l, name, minConf, h[..k], true), OwnerIn(l, name, minConf, h, false))
  {
    hide Commitment, Bindings, Best, Ascending;
    var rv := Revealed(l, name, minConf);
    TruncationExactly(rv, h, k);
    forall c | c in Bindings(rv, h[..k])
      ensures c in Bindings(rv, h) && Hash160(Bindings(rv, h)[c]) == Hash160(Bindings(rv, h[..k])[c])
    {
      BindingsExactly(rv, h[..k], c);
      BindingsExactly(rv, h, c);
    }
  }

  /** So it is with the 512 oldest entries of a long history. */
  lemma LongHistory(l: Ledger, name: Bytes, minConf: int)
    requires var h, rv := l.History(MarkerScript(name)), Revealed(l, name, minConf);
      && |h| > 512 && Ascending(h) && !Unfetched(l, h, minConf) && Owner(l, name, minConf).Found?
      && forall e :: e in h[512..] ==> !Displaces(rv, Best(rv, h[..512]).value, e)
    ensures SameOwner(Owner(l, name, minConf), OwnerIn(l, name, minConf, l.History(MarkerScript(name)), false))
  {
    hide MarkerScript, Best, Ascending, Unfetched;
    SafeTruncation(l, name, minConf, l.History(MarkerScript(name)), 512);
  }

  // ---------------------------------------------------------------- when a name is said to be free

  lemma {:induction false} WalkAnswers(l: Ledger, category: Bytes, p: ParsedInput, script: Bytes, commitment: Bytes,
                                       hops: nat)
    ensures !Walk(l, category, p, script, commitment, hops).NotFound?
    decreases hops
  {
    hide ParseTx, Spender, TokenIndex;
    if hops > 0 {
      var found := Spender(l, script, p);
      if found.Found? && ParseTx(found.value).Some? {
        var tx := ParseTx(found.value).value;
        var i := TokenIndex(tx.outputs, category);
        if i.Some? && i.value < |tx.outputs| && tx.outputs[i.value].token.Some? {
          var o := tx.outputs[i.value];
          WalkAnswers(l, category, ParsedInput(TxId(found.value), Vout(i.value)), o.script, o.token.value.commitment,
                      hops - 1);
        }
      }
    }
  }

  /** A claim that spends no output 0, or mints no token of the category that it stands for. */
  predicate Improper(l: Ledger, txid: Bytes) {
    l.Parsed(txid).Some?
    && match CategoryOf(l.Parsed(txid).value.inputs)
       case None => true
       case Some(category) => TokenIndex(l.Parsed(txid).value.outputs, category).None?
  }

  /** A name is reported as not registered only when every confirmed entry scanned could be fetched, and from a history
      that was cut off only when its winning claim is no proper one. */
  lemma NotFoundMeans(l: Ledger, name: Bytes, minConf: int)
    requires Owner(l, name, minConf).NotFound?
    ensures var h, rv := l.History(MarkerScript(name)), Revealed(l, name, minConf);
      var scan := if |h| <= 512 then h else h[..512];
      && (forall e :: e in scan && e.height > 0 && l.tip - e.height + 1 >= minConf ==> e.txid in l.txs)
      && (|h| > 512 ==> exists e :: e in scan && Claims(rv, e) && Improper(l, e.txid))
  {
    hide MarkerScript, Best, Bindings, Revealed, ParseTx, CategoryOf, TokenIndex, Walk;
    var h, rv := l.History(MarkerScript(name)), Revealed(l, name, minConf);
    var scan := OldestHistory(h).0;
    if |h| > 512 {
      BestIsEarliest(rv, scan);
      var w := Best(rv, scan).value;
      var tx := l.Parsed(w.txid).value;
      if CategoryOf(tx.inputs).Some? {
        MintOrNothing(l, w.txid, CategoryOf(tx.inputs).value);
      }
    }
  }

  /** An entry that is confirmed and cannot be fetched leaves the lookup without an answer, whatever the rest says. */
  lemma UnfetchedFails(l: Ledger, name: Bytes, minConf: int, e: Item)
    requires var h := l.History(MarkerScript(name)); e in if |h| <= 512 then h else h[..512]
    requires e.height > 0 && l.tip - e.height + 1 >= minConf && e.txid !in l.txs
    ensures Owner(l, name, minConf).Failed?
  {
    hide MarkerScript, Best, Bindings, ParseTx;
  }

  lemma MintOrNothing(l: Ledger, txid: Bytes, category: Bytes)
    requires l.Parsed(txid).Some?
    ensures Commitment(l, txid, category).NotFound? <==> TokenIndex(l.Parsed(txid).value.outputs, category).None?
  {
    hide ParseTx, Walk;
    var i := TokenIndex(l.Parsed(txid).value.outputs, category);
    if i.Some? {
      var o := l.Parsed(txid).value.outputs[i.value];
      WalkAnswers(l, category, ParsedInput(txid, Vout(i.value)), o.script, o.token.value.commitment, MAX_CUSTODY_HOPS);
    }
  }

  // ---------------------------------------------------------------- custody

  ghost predicate SpentBy(l: Ledger, p: ParsedInput, txid: Bytes) {
    l.Parsed(txid).Some? && p in l.Parsed(txid).value.inputs
  }

  function OutputAt(l: Ledger, p: ParsedInput): Option<TxOutput> {
    match l.Parsed(p.prevTxId)
    case None => None
    case Some(tx) => if p.prevIndex < |tx.outputs| then Some(tx.outputs[p.prevIndex]) else None
  }

  /** A ledger as a chain is: transactions under their own ids, every outpoint spent at most once. */
  ghost predicate Sound(l: Ledger) {
    && (forall t :: t in l.txs ==> TxId(l.txs[t]) == t)
    && (forall t :: l.Parsed(t).Some? ==> |l.Parsed(t).value.outputs| < 0x1_0000_0000)
    && (forall p, a, b :: SpentBy(l, p, a) && SpentBy(l, p, b) ==> a == b)
  }

  /** Histories as an honest server with small ones gives them: every entry can be fetched, every spend of a
      script's output is listed, and nothing is cut off. */
  ghost predicate Complete(l: Ledger) {
    && (forall s, h :: h in l.History(s) ==> h.txid in l.txs)
    && (forall s :: |l.History(s)| <= MAX_HISTORY_SCAN)
    && (forall p, t :: SpentBy(l, p, t) && OutputAt(l, p).Some? ==> Listed(l.History(OutputAt(l, p).value.script), t))
  }

  ghost predicate Listed(h: seq<Item>, txid: Bytes) {
    exists e :: e in h && e.txid == txid
  }

  /** Where the token goes next: the first output of its category in the transaction that spends it. */
  ghost function Next(l: Ledger, category: Bytes, p: ParsedInput): Option<ParsedInput> {
    if exists t :: SpentBy(l, p, t) then
      var t :| SpentBy(l, p, t);
      match TokenIndex(l.Parsed(t).value.outputs, category)
      case None => None
      case Some(i) => Some(ParsedInput(t, Vout(i)))
    else None
  }

  /** Where the token is after at most `n` moves: unspent, burned, or still moving. */
  ghost function Custody(l: Ledger, category: Bytes, p: ParsedInput, n: nat): ParsedInput
    decreases n
  {
    if n == 0 then p
    else match Next(l, category, p) case None => p case Some(q) => Custody(l, category, q, n - 1)
  }

  lemma {:induction false} SpenderInFinds(l: Ledger, scan: seq<Item>, p: ParsedInput)
    requires forall h :: h in scan ==> h.txid in l.txs
    ensures match SpenderIn(l, scan, p)
            case Found(raw) => exists h :: h in scan && SpentBy(l, p, h.txid) && raw == l.txs[h.txid]
            case NotFound => forall h :: h in scan ==> !SpentBy(l, p, h.txid)
            case _ => false
  {
    if scan != [] {
      var init, h := scan[..|scan| - 1], scan[|scan| - 1];
      assert scan == init + [h];
      SpenderInFinds(l, init, p);
    }
  }

  /** On such a ledger the scan finds the one transaction that spends an output, if there is one. */
  lemma SpenderIsUnique(l: Ledger, p: ParsedInput)
    requires Sound(l) && Complete(l) && OutputAt(l, p).Some?
    ensures match Spender(l, OutputAt(l, p).value.script, p)
            case Found(raw) => TxId(raw) in l.txs && l.txs[TxId(raw)] == raw && SpentBy(l, p, TxId(raw))
            case NotFound => forall t :: !SpentBy(l, p, t)
            case _ => false
  {
    hide ParseTx;
    var h := l.History(OutputAt(l, p).value.script);
    SpenderInFinds(l, h, p);
    if Spender(l, OutputAt(l, p).value.script, p).NotFound? {
      forall t ensures !SpentBy(l, p, t) {
        assert SpentBy(l, p, t) ==> Listed(h, t);
      }
    }
  }

  /** In a long history the 512 newest entries decide; when none of them is the spender the answer is left open. */
  lemma RecentSpender(l: Ledger, script: Bytes, p: ParsedInput)
    requires var h := l.History(script); |h| > 512 && forall e :: e in h[|h| - 512..] ==> e.txid in l.txs
    ensures var h := l.History(script);
      match Spender(l, script, p)
      case Found(raw) => exists e :: e in h[|h| - 512..] && SpentBy(l, p, e.txid) && raw == l.txs[e.txid]
      case Truncated => forall e :: e in h[|h| - 512..] ==> !SpentBy(l, p, e.txid)
      case _ => false
  {
    SpenderInFinds(l, l.History(script)[|l.History(script)| - 512..], p);
  }

  lemma NextOnSpend(l: Ledger, category: Bytes, p: ParsedInput, t: Bytes)
    requires Sound(l) && SpentBy(l, p, t)
    ensures Next(l, category, p) ==
      match TokenIndex(l.Parsed(t).value.outputs, category)
      case None => None
      case Some(i) => Some(ParsedInput(t, Vout(i)))
  {
  }

  ghost predicate TokenAt(l: Ledger, category: Bytes, p: ParsedInput) {
    OutputAt(l, p).Some? && Carries(OutputAt(l, p).value, category)
  }

  ghost function CommitmentAt(l: Ledger, category: Bytes, p: ParsedInput): Bytes
    requires TokenAt(l, category, p)
  {
    OutputAt(l, p).value.token.value.commitment
  }

  lemma NextHoldsToken(l: Ledger, category: Bytes, p: ParsedInput, t: Bytes, i: nat)
    requires Sound(l) && SpentBy(l, p, t) && TokenIndex(l.Parsed(t).value.outputs, category) == Some(i)
    ensures Vout(i) == i && OutputAt(l, ParsedInput(t, Vout(i))) == Some(l.Parsed(t).value.outputs[i])
    ensures TokenAt(l, category, ParsedInput(t, Vout(i)))
  {
    hide ParseTx;
  }

  /** The walk ends with the commitment at the end of custody. */
  lemma {:induction false} WalkFollowsCustody(l: Ledger, category: Bytes, p: ParsedInput, n: nat)
    requires Sound(l) && Complete(l) && TokenAt(l, category, p)
    ensures TokenAt(l, category, Custody(l, category, p, n))
    ensures Walk(l, category, p, OutputAt(l, p).value.script, CommitmentAt(l, category, p), n)
         == Found(CommitmentAt(l, category, Custody(l, category, p, n)))
    decreases n
  {
    hide ParseTx, Spender, Sound, Complete, TokenIndex;
    if n > 0 {
      SpenderIsUnique(l, p);
      var found := Spender(l, OutputAt(l, p).value.script, p);
      if found.Found? {
        var t := TxId(found.value);
        NextOnSpend(l, category, p, t);
        var i := TokenIndex(l.Parsed(t).value.outputs, category);
        if i.Some? {
          NextHoldsToken(l, category, p, t, i.value);
          WalkFollowsCustody(l, category, ParsedInput(t, Vout(i.value)), n - 1);
        }
      }
    }
  }

  // ---------------------------------------------------------------- every history in any order

  /** One chain, told by two servers that list the same entries in different orders. */
  ghost predicate SameChain(a: Ledger, b: Ledger) {
    a.tip == b.tip && a.txs == b.txs && forall s, h :: h in a.History(s) <==> h in b.History(s)
  }

  lemma SpenderAgrees(a: Ledger, b: Ledger, p: ParsedInput)
    requires SameChain(a, b) && Sound(a) && Sound(b) && Complete(a) && Complete(b) && OutputAt(a, p).Some?
    ensures Spender(a, OutputAt(a, p).value.script, p) == Spender(b, OutputAt(a, p).value.script, p)
  {
    hide Spender, Complete, ParseTx;
    SpenderIsUnique(a, p);
    SpenderIsUnique(b, p);
    assert forall t :: SpentBy(a, p, t) <==> SpentBy(b, p, t);
  }

  lemma {:induction false} WalkAgrees(a: Ledger, b: Ledger, category: Bytes, p: ParsedInput, n: nat)
    requires SameChain(a, b) && Sound(a) && Sound(b) && Complete(a) && Complete(b) && TokenAt(a, category, p)
    ensures Walk(a, category, p, OutputAt(a, p).value.script, CommitmentAt(a, category, p), n)
         == Walk(b, category, p, OutputAt(a, p).value.script, CommitmentAt(a, category, p), n)
    decreases n
  {
    hide ParseTx, Spender, Sound, Complete, TokenIndex, SameChain;
    if n > 0 {
      SpenderAgrees(a, b, p);
      SpenderIsUnique(a, p);
      var found := Spender(a, OutputAt(a, p).value.script, p);
      if found.Found? {
        var t := TxId(found.value);
        var i := TokenIndex(a.Parsed(t).value.outputs, category);
        if i.Some? {
          NextHoldsToken(a, category, p, t, i.value);
          WalkAgrees(a, b, category, ParsedInput(t, Vout(i.value)), n - 1);
        }
      }
    }
  }

  lemma CommitmentAgrees(a: Ledger, b: Ledger, txid: Bytes, category: Bytes)
    requires SameChain(a, b) && Sound(a) && Sound(b) && Complete(a) && Complete(b)
    ensures Commitment(a, txid, category) == Commitment(b, txid, category)
  {
    hide ParseTx, Walk, Complete;
    if a.Parsed(txid).Some? {
      var i := TokenIndex(a.Parsed(txid).value.outputs, category);
      if i.Some? {
        WalkAgrees(a, b, category, ParsedInput(txid, Vout(i.value)), MAX_CUSTODY_HOPS);
      }
    }
  }

  /** On a complete ledger, resolving a name does not depend on the order of any history, the token's holders'
      included. */
  lemma ResolutionIgnoresAllOrders(a: Ledger, b: Ledger, name: Bytes, minConf: int)
    requires SameChain(a, b) && Sound(a) && Sound(b) && Complete(a) && Complete(b)
    ensures SameOwner(Owner(a, name, minConf), Owner(b, name, minConf))
  {
    hide ParseTx, RevealedBy, Commitment, Bindings, Best, MarkerScript, Sound, CategoryOf;
    var rv, ha, hb := Revealed(a, name, minConf), a.History(MarkerScript(name)), b.History(MarkerScript(name));
    BestIgnoresOrder(rv, ha, hb);
    assert Unfetched(a, ha, minConf) <==> Unfetched(b, hb, minConf);
    var winner := Winner(a, name, minConf, ha, false);
    if winner.Found? {
      CommitmentAgrees(a, b, winner.value.0.txid, winner.value.1);
      var c := Commitment(a, winner.value.0.txid, winner.value.1);
      if c.Found? {
        BindingsIgnoreOrder(rv, ha, hb, c.value);
      }
    }
  }

  // ---------------------------------------------------------------- authority

  /** `pub` was revealed by a confirmed announcement about the name. */
  ghost predicate RevealedIn(rv: Reveal, scan: seq<Item>, pub: Bytes) {
    exists h :: h in scan && rv(h).Some? && rv(h).value.1 == pub
  }

  /** Entry `h` is of a transaction, with at least `minConf` blocks from its own to the tip, of which some output has
      the pushes tag, name, `pub`. */
  ghost predicate StandsIn(l: Ledger, name: Bytes, minConf: int, h: Item, tag: Bytes, pub: Bytes) {
    && 0 < h.height && l.tip - h.height + 1 >= minConf
    && l.Parsed(h.txid).Some?
    && exists o :: o in l.Parsed(h.txid).value.outputs && SpeaksOf(o, name)
         && ParseOpReturn(o.script)[0] == tag && ParseOpReturn(o.script)[2] == pub
  }

  /** A scan takes something from an entry exactly when it is one that is confirmed deep enough and speaks of the
      name. */
  lemma RevealedExactly(l: Ledger, name: Bytes, minConf: int, h: Item)
    ensures var a := Revealed(l, name, minConf)(h);
      && (a.Some? <==> exists tag, pub :: StandsIn(l, name, minConf, h, tag, pub))
      && (a.Some? ==> StandsIn(l, name, minConf, h, a.value.0, a.value.1))
  {
    hide ParseTx, MetadataIn, SpeaksOf, ParseOpReturn;
    if l.Parsed(h.txid).Some? {
      MetadataExactly(l.Parsed(h.txid).value.outputs, name);
    }
    var a := Revealed(l, name, minConf)(h);
    if a.Some? {
      assert StandsIn(l, name, minConf, h, a.value.0, a.value.1);
    }
  }

  /** Where the winning claim minted the token. */
  function MintPoint(l: Ledger, h: Item, category: Bytes): Option<ParsedInput> {
    match l.Parsed(h.txid)
    case None => None
    case Some(tx) =>
      match TokenIndex(tx.outputs, category) case None => None case Some(i) => Some(ParsedInput(h.txid, Vout(i)))
  }

  lemma CommitmentFollowsCustody(l: Ledger, h: Item, category: Bytes)
    requires Sound(l) && Complete(l) && MintPoint(l, h, category).Some?
    ensures var p := MintPoint(l, h, category).value;
      && TokenAt(l, category, Custody(l, category, p, MAX_CUSTODY_HOPS))
      && Commitment(l, h.txid, category) == Found(CommitmentAt(l, category, Custody(l, category, p, MAX_CUSTODY_HOPS)))
  {
    hide ParseTx, Walk, Custody, Complete;
    var p := MintPoint(l, h, category).value;
    WalkFollowsCustody(l, category, p, MAX_CUSTODY_HOPS);
  }

  /** Only a revealed key whose hash the live token carries is ever returned, and whenever there is one it is. */
  lemma OwnerExactly(l: Ledger, name: Bytes, minConf: int, scan: seq<Item>, truncated: bool, h: Item,
                     category: Bytes, c: Bytes)
    requires Winner(l, name, minConf, scan, truncated) == Found((h, category))
    requires Commitment(l, h.txid, category) == Found(c)
    ensures var rv, owner := Revealed(l, name, minConf), OwnerIn(l, name, minConf, scan, truncated);
      && (owner.Found? ==> RevealedIn(rv, scan, owner.value) && Hash160(owner.value) == c)
      && (owner.Found? <==> exists pub :: RevealedIn(rv, scan, pub) && Hash160(pub) == c)
      && (!owner.Found? ==> owner == Missing(truncated))
  {
    hide Revealed, Commitment, Winner;
    BindingsExactly(Revealed(l, name, minConf), scan, c);
    var rv := Revealed(l, name, minConf);
    if exists e :: e in scan && rv(e).Some? && Hash160(rv(e).value.1) == c {
      var e :| e in scan && rv(e).Some? && Hash160(rv(e).value.1) == c;
      assert RevealedIn(rv, scan, rv(e).value.1);
    }
  }

  /** The winner is the earliest confirmed transaction that claims the name, ties going to the smaller transaction id,
      and its category is that of the first output 0 it spends. */
  lemma WinnerExactly(l: Ledger, name: Bytes, minConf: int, scan: seq<Item>, truncated: bool, w: Item, category: Bytes)
    requires Winner(l, name, minConf, scan, truncated) == Found((w, category))
    ensures w in scan && exists first :: StandsIn(l, name, minConf, w, [0x46, 0x4e, 0x30, 0x31], first)
    ensures forall e :: e in scan && Claims(Revealed(l, name, minConf), e) ==>
              e == w || w.height < e.height || (w.height == e.height && Before(w.txid, e.txid))
    ensures l.Parsed(w.txid).Some? && CategoryOf(l.Parsed(w.txid).value.inputs) == Some(category)
  {
    hide Revealed, ParseTx, Best, StandsIn, CategoryOf, Before, Unfetched;
    BestIsEarliest(Revealed(l, name, minConf), scan);
    RevealedExactly(l, name, minConf, w);
  }

  /** The key stands next to the name in a confirmed transaction of its history. */
  ghost predicate StandsSomewhere(l: Ledger, name: Bytes, minConf: int, pub: Bytes) {
    exists h, tag :: h in l.History(MarkerScript(name)) && StandsIn(l, name, minConf, h, tag, pub)
  }

  /** `end` is where custody has led from the mint of the name's winning claim. */
  ghost predicate LiveToken(l: Ledger, name: Bytes, minConf: int, category: Bytes, end: ParsedInput) {
    exists w ::
      && Winner(l, name, minConf, l.History(MarkerScript(name)), false) == Found((w, category))
      && MintPoint(l, w, category).Some?
      && end == Custody(l, category, MintPoint(l, w, category).value, MAX_CUSTODY_HOPS)
  }

  /** On a complete ledger with one spender for every outpoint, the owner of a name is a key that stands next to the
      name in a confirmed transaction of its history, and its hash is the commitment reached by following the token
      from its mint; anyone else's announcements change nothing. */
  lemma OwnerHoldsToken(l: Ledger, name: Bytes, minConf: int, pub: Bytes)
    requires Sound(l) && Complete(l) && Owner(l, name, minConf) == Found(pub)
    ensures StandsSomewhere(l, name, minConf, pub)
    ensures exists category, end ::
      LiveToken(l, name, minConf, category, end) && TokenAt(l, category, end)
      && Hash160(pub) == CommitmentAt(l, category, end)
  {
    hide Revealed, ParseTx, Custody, MarkerScript, Best, Bindings, StandsIn, CategoryOf;
    var rv, scan := Revealed(l, name, minConf), l.History(MarkerScript(name));
    var (w, category) := Winner(l, name, minConf, scan, false).value;
    var c := Commitment(l, w.txid, category).value;
    OwnerExactly(l, name, minConf, scan, false, w, category, c);
    CommitmentFollowsCustody(l, w, category);
    var h :| h in scan && rv(h).Some? && rv(h).value.1 == pub;
    RevealedExactly(l, name, minConf, h);
    assert MintPoint(l, w, category).Some?;
    assert LiveToken(l, name, minConf, category,
                     Custody(l, category, MintPoint(l, w, category).value, MAX_CUSTODY_HOPS));
  }

  // ---------------------------------------------------------------- a built claim

  /** A claim or a rebind whose parts fit their fields, with any unlocking scripts. */
  ghost predicate WellSized(spent: seq<Coin>, name: Bytes, pub: Bytes, unlocking: seq<Bytes>) {
    && 0 < |spent| < 0x1_0000_0000_0000_0000 && Total(spent) < 0x8000_0000_0000_0000
    && (forall c :: c in spent ==> |c.txid| == 32)
    && |name| <= MAX_PUSH && |pub| <= MAX_PUSH
    && |unlocking| == |spent| && forall u :: u in unlocking ==> |u| < 0x8000_0000_0000_0000
  }

  lemma AnnouncementSize(tag: Bytes, name: Bytes, pub: Bytes)
    requires |tag| <= MAX_PUSH && |name| <= MAX_PUSH && |pub| <= MAX_PUSH
    ensures 0 < |OpReturnScript([tag, name, pub])| <= 200000 && OpReturnScript([tag, name, pub])[0] == OP_RETURN
  {
    var ps := [tag, name, pub];
    assert ps[1..] == [name, pub] && [name, pub][1..] == [pub] && [pub][1..] == [];
    assert Pushes(ps) == Push(tag) + Pushes([name, pub]);
    assert Pushes([name, pub]) == Push(name) + Pushes([pub]);
    assert Pushes([pub]) == Push(pub) + [];
  }

  lemma NameOutputsEncodable(pkh: Hash20, category: Bytes, tag: Bytes, name: Bytes, pub: Bytes, change: int)
    requires |category| == 32 && |tag| == 4 && |name| <= MAX_PUSH && |pub| <= MAX_PUSH && change < 0x8000_0000_0000_0000
    ensures forall o :: o in WithChange(NameOutputs(pkh, category, tag, name, pub), change, pkh) ==>
      Sized(o) && Unambiguous(o)
  {
    AnnouncementSize(tag, name, pub);
  }

  lemma NoAnnouncement(script: Bytes, name: Bytes)
    requires script != [] && script[0] != OP_RETURN
    ensures Announced(ParseOpReturn(script), name) == None
  {
  }

  lemma NameOutputsAnnounce(pkh: Hash20, category: Bytes, tag: Bytes, name: Bytes, pub: Bytes, change: int)
    requires tag == FN_CLAIM || tag == FN_REBIND
    requires |name| <= MAX_PUSH && |pub| <= MAX_PUSH && KeyParses(pub) && change < 0x8000_0000_0000_0000
    ensures var os := WithChange(NameOutputs(pkh, category, tag, name, pub), change, pkh);
      MetadataIn(os, name) == Some((tag, pub)) && TokenIndex(os, category) == Some(0)
  {
    var os := WithChange(NameOutputs(pkh, category, tag, name, pub), change, pkh);
    NoAnnouncement(os[0].script, name);
    OpReturnRoundTrip([tag, name, pub]);
    assert Announced(ParseOpReturn(os[1].script), name) == Some((tag, pub));
    assert os[1..][0] == os[1];
  }

  /** Nothing of it is about any other name. */
  lemma OtherNameSilent(pkh: Hash20, category: Bytes, tag: Bytes, name: Bytes, pub: Bytes, change: int, other: Bytes)
    requires tag == FN_CLAIM || tag == FN_REBIND
    requires |name| <= MAX_PUSH && |pub| <= MAX_PUSH && change < 0x8000_0000_0000_0000 && other != name
    ensures MetadataIn(WithChange(NameOutputs(pkh, category, tag, name, pub), change, pkh), other) == None
  {
    var os := WithChange(NameOutputs(pkh, category, tag, name, pub), change, pkh);
    MetadataExactly(os, other);
    OpReturnRoundTrip([tag, name, pub]);
    forall o | o in os ensures !SpeaksOf(o, other) {
      assert o == os[1] || o.script[0] != OP_RETURN;
    }
  }

  /** The transaction that a claim or a rebind is. */
  function NameTx(spent: seq<Coin>, pkh: Hash20, category: Bytes, tag: Bytes, name: Bytes, pub: Bytes, change: int):
      Transaction
    requires change < 0x8000_0000_0000_0000
  {
    Transaction(2, InputsOf(spent), WithChange(NameOutputs(pkh, category, tag, name, pub), change, pkh), 0)
  }

  /** Some output pays the name's marker. */
  predicate PaysMarker(outputs: seq<TxOutput>, name: Bytes) {
    exists o :: o in outputs && o.script == MarkerScript(name) && o.value == 546
  }

  /** It pays the name's marker, and all else of value to the wallet itself: the token with its dust, and the change. */
  lemma NameTxPays(pkh: Hash20, category: Bytes, tag: Bytes, name: Bytes, pub: Bytes, change: int)
    requires change < 0x8000_0000_0000_0000
    ensures var os := WithChange(NameOutputs(pkh, category, tag, name, pub), change, pkh);
      && PaysMarker(os, name)
      && (forall o :: o in os ==>
            o.script == P2pkhScript(pkh) || (o.script == MarkerScript(name) && o.value == 546) || o.value == 0)
      && os[0] == TxOutput(1000, P2pkhScript(pkh), Some(TokenInfo(category, 1, Hash160(pub), 0)))
      && (forall i :: 1 <= i < |os| ==> os[i].token.None?)
      && OutTotal(os) == 1000 + 546 + (if change >= 546 then change else 0)
  {
    hide OutTotal;
    var os := WithChange(NameOutputs(pkh, category, tag, name, pub), change, pkh);
    NameOutputsTotal(pkh, category, tag, name, pub);
    ChangeTotal(NameOutputs(pkh, category, tag, name, pub), change, pkh);
    assert os[2].script == MarkerScript(name) && os[2].value == 546;
  }

  /** Names with one marker have one hash after "FN:". */
  lemma MarkersDiffer(a: Bytes, b: Bytes)
    ensures MarkerScript(a) == MarkerScript(b) <==> Hash160([0x46, 0x4e, 0x3a] + a) == Hash160([0x46, 0x4e, 0x3a] + b)
    ensures |MarkerScript(a)| == 25 && MarkerScript(a)[3..23] == Hash160([0x46, 0x4e, 0x3a] + a)
    ensures MarkerScript(a)[..3] == [0x76, 0xa9, 20] && MarkerScript(a)[23..] == [0x88, 0xac]
  {
    P2pkhLayout(Hash160(FN_COLON + a));
    P2pkhLayout(Hash160(FN_COLON + b));
  }

  lemma P2pkhLayout(pkh: Hash20)
    ensures var s := P2pkhScript(pkh);
      |s| == 25 && s[..3] == [0x76, 0xa9, 20] && s[3..23] == pkh && s[23..] == [0x88, 0xac]
  {
  }

  /** Its bytes parse back to what it spends, what it announces and the token it carries. */
  lemma NameTxParses(spent: seq<Coin>, pkh: Hash20, category: Bytes, tag: Bytes, name: Bytes, pub: Bytes, change: int,
                     unlocking: seq<Bytes>)
    requires WellSized(spent, name, pub, unlocking) && KeyParses(pub) && |category| == 32
    requires (tag == FN_CLAIM || tag == FN_REBIND) && change < 0x8000_0000_0000_0000
    ensures var tx := NameTx(spent, pkh, category, tag, name, pub, change);
      && Encodable(tx, unlocking)
      && ParseTx(Encode(tx, unlocking)) == Some(ParsedTx(Outpoints(tx.inputs), tx.outputs))
      && MetadataIn(tx.outputs, name) == Some((tag, pub)) && TokenIndex(tx.outputs, category) == Some(0)
      && tx.outputs[0].token == Some(TokenInfo(category, CAP_MUTABLE, Hash160(pub), 0))
      && tx.outputs[0].script == P2pkhScript(pkh) && PaysMarker(tx.outputs, name)
  {
    hide ParseTx, Encode, MetadataIn, TokenIndex, Sized, Total, EstimateFee, ParseOpReturn, Unambiguous, PaysMarker;
    NameTxPays(pkh, category, tag, name, pub, change);
    var tx := NameTx(spent, pkh, category, tag, name, pub, change);
    NameOutputsEncodable(pkh, category, tag, name, pub, change);
    NameOutputsAnnounce(pkh, category, tag, name, pub, change);
    forall i | i in tx.inputs ensures |i.prevTxId| == 32 {
      var k :| 0 <= k < |spent| && tx.inputs[k] == i;
      assert spent[k] in spent;
    }
    TransactionRoundTrip(tx, unlocking);
  }

  /** And read in full they are a version 2 transaction that spends exactly those coins, each with its own unlocking
      script and final, pays the marker third, and may be mined at once. */
  lemma NameTxInFull(spent: seq<Coin>, pkh: Hash20, category: Bytes, tag: Bytes, name: Bytes, pub: Bytes, change: int,
                     unlocking: seq<Bytes>)
    requires WellSized(spent, name, pub, unlocking) && |category| == 32 && |tag| == 4
      && change < 0x8000_0000_0000_0000
    ensures Encodable(NameTx(spent, pkh, category, tag, name, pub, change), unlocking)
    ensures var read := TakeRawTx(Encode(NameTx(spent, pkh, category, tag, name, pub, change), unlocking));
      && read.Some? && read.value.1 == []
      && var tx := read.value.0;
         && tx.version == 2 && tx.lockTime == 0 && |tx.inputs| == |spent|
         && (forall i :: 0 <= i < |spent| ==>
               tx.inputs[i] == RawInput(spent[i].txid, spent[i].index, unlocking[i], 0xffff_ffff))
         && |tx.outputs| == (if change >= 546 then 4 else 3)
         && tx.outputs[1] == RawOutput(0, OpReturnScript([tag, name, pub]))
         && tx.outputs[2] == RawOutput(546, MarkerScript(name))
         && (change >= 546 ==> tx.outputs[3] == RawOutput(change, P2pkhScript(pkh)))
  {
    hide Encode, Total, EstimateFee, Sized, TakeRawTx, OpReturnScript, MarkerScript, P2pkhScript, Unambiguous;
    var tx := NameTx(spent, pkh, category, tag, name, pub, change);
    NameOutputsEncodable(pkh, category, tag, name, pub, change);
    forall i | i in tx.inputs ensures |i.prevTxId| == 32 {
      var k :| 0 <= k < |spent| && tx.inputs[k] == i;
      assert spent[k] in spent;
    }
    RawRoundTrip(tx, unlocking, []);
    assert Encode(tx, unlocking) + [] == Encode(tx, unlocking);
  }

  /** The bytes of a built claim parse back: to its own category, and to the announcement of its owner's key. */
  lemma ClaimParses(spent: seq<Coin>, pkh: Hash20, name: Bytes, pub: Bytes, unlocking: seq<Bytes>)
    requires WellSized(spent, name, pub, unlocking) && CanMint(spent[0]) && KeyParses(pub)
    ensures Encodable(ClaimTx(spent, pkh, name, pub), unlocking)
    ensures var tx := ClaimTx(spent, pkh, name, pub);
      && ParseTx(Encode(tx, unlocking)) == Some(ParsedTx(Outpoints(tx.inputs), tx.outputs))
      && CategoryOf(Outpoints(tx.inputs)) == Some(spent[0].txid)
      && MetadataIn(tx.outputs, name) == Some((FN_CLAIM, pub))
      && TokenIndex(tx.outputs, spent[0].txid) == Some(0)
      && tx.outputs[0].token == Some(TokenInfo(spent[0].txid, CAP_MUTABLE, Hash160(pub), 0))
      && tx.outputs[0].script == P2pkhScript(pkh) && PaysMarker(tx.outputs, name)
  {
    hide ParseTx, Encode, MetadataIn, TokenIndex, Total, EstimateFee, NameOutputs, WithChange, PaysMarker;
    NameTxParses(spent, pkh, spent[0].txid, FN_CLAIM, name, pub, ClaimChange(spent), unlocking);
  }

  /** Every transaction of the chain is listed, at its own height, in the history of each script that it pays. */
  ghost predicate Listing(l: Ledger, heights: map<Bytes, int>) {
    forall t, o :: t in heights && l.Parsed(t).Some? && o in l.Parsed(t).value.outputs ==>
      Item(t, heights[t]) in l.History(o.script)
  }

  lemma MarkerListed(l: Ledger, heights: map<Bytes, int>, t: Bytes, name: Bytes)
    requires Listing(l, heights) && t in heights && l.Parsed(t).Some? && PaysMarker(l.Parsed(t).value.outputs, name)
    ensures Item(t, heights[t]) in l.History(MarkerScript(name))
  {
    hide ParseTx, MarkerScript;
  }

  /** An entry of a height-ascending history is scanned when it lies below the first one cut off. */
  lemma OldIsScanned(h: seq<Item>, e: Item)
    requires e in h && e.height > 0
    requires |h| <= MAX_HISTORY_SCAN || (Ascending(h) && e.height < h[MAX_HISTORY_SCAN].height)
    ensures e in OldestHistory(h).0
  {
    var i :| 0 <= i < |h| && h[i] == e;
    if |h| > MAX_HISTORY_SCAN {
      if i >= MAX_HISTORY_SCAN {
        NotLower(h, MAX_HISTORY_SCAN, i);
      }
      assert h[..MAX_HISTORY_SCAN][i] == e;
    }
  }

  /** A built claim resolves to its owner: once its bytes are on the chain as the earliest confirmed claim of the name,
      not cut off by a long history, and its token has not moved, resolving the name returns the key it announced. */
  lemma BuiltClaimResolves(l: Ledger, heights: map<Bytes, int>, minConf: int, spent: seq<Coin>, pkh: Hash20,
                           name: Bytes, pub: Bytes, unlocking: seq<Bytes>, raw: Bytes)
    requires WellSized(spent, name, pub, unlocking) && CanMint(spent[0]) && KeyParses(pub)
    requires Encodable(ClaimTx(spent, pkh, name, pub), unlocking)
      && raw == Encode(ClaimTx(spent, pkh, name, pub), unlocking)
    requires Listing(l, heights) && TxId(raw) in heights && Confirmed(heights[TxId(raw)], l.tip, minConf)
      && TxId(raw) in l.txs && l.txs[TxId(raw)] == raw
    requires var history, claim := l.History(MarkerScript(name)), Item(TxId(raw), heights[TxId(raw)]);
      && (|history| <= MAX_HISTORY_SCAN
          || (Ascending(history) && claim.height < history[MAX_HISTORY_SCAN].height))
      && !Unfetched(l, OldestHistory(history).0, minConf)
      && (forall h :: h in history && Claims(Revealed(l, name, minConf), h) ==> h == claim || Earlier(claim, h))
      && forall p :: RevealedIn(Revealed(l, name, minConf), OldestHistory(history).0, p) ==>
           Hash160(p) == Hash160(pub) ==> p == pub
    requires Spender(l, P2pkhScript(pkh), ParsedInput(TxId(raw), 0)).NotFound?
    ensures Owner(l, name, minConf) == Found(pub)
  {
    hide ParseTx, Encode, MetadataIn, CategoryOf, Spender, MarkerScript, Best, Bindings, Unfetched, Total, PaysMarker,
         Ascending, Listing;
    var (scan, truncated) := OldestHistory(l.History(MarkerScript(name)));
    var rv, claim, category := Revealed(l, name, minConf), Item(TxId(raw), heights[TxId(raw)]), spent[0].txid;
    var bound: Bytes := Hash160(pub);
    ClaimParses(spent, pkh, name, pub, unlocking);
    MarkerListed(l, heights, TxId(raw), name);
    OldIsScanned(l.History(MarkerScript(name)), claim);
    assert rv(claim) == Some((FN_CLAIM, pub)) && Claims(rv, claim);
    BestIsEarliest(rv, scan);
    EarlierTotal(claim, Best(rv, scan).value);
    assert Best(rv, scan) == Some(claim);
    assert Winner(l, name, minConf, scan, truncated) == Found((claim, category));
    assert Commitment(l, claim.txid, category) == Found(bound);
    OwnerExactly(l, name, minConf, scan, truncated, claim, category, bound);
    assert RevealedIn(rv, scan, pub);
  }

  // ---------------------------------------------------------------- a built rebind

  /** The outpoint of a coin. */
  function PointOf(c: Coin): ParsedInput {
    ParsedInput(c.txid, c.index)
  }

  /** The bytes of a built rebind parse back: to a spend of the token coin, the announcement of the new key, and the
      token bound to it. */
  lemma RebindParses(nft: Coin, funding: seq<Coin>, pkh: Hash20, name: Bytes, category: Bytes, pub: Bytes,
                     unlocking: seq<Bytes>)
    requires WellSized([nft] + funding, name, pub, unlocking) && KeyParses(pub) && |category| == 32
    requires nft.value + Total(funding) < 0x8000_0000_0000_0000
    ensures Encodable(RebindTx(nft, funding, pkh, name, category, pub), unlocking)
    ensures var tx := RebindTx(nft, funding, pkh, name, category, pub);
      && ParseTx(Encode(tx, unlocking)) == Some(ParsedTx(Outpoints(tx.inputs), tx.outputs))
      && PointOf(nft) in Outpoints(tx.inputs)
      && MetadataIn(tx.outputs, name) == Some((FN_REBIND, pub))
      && TokenIndex(tx.outputs, category) == Some(0)
      && tx.outputs[0].token == Some(TokenInfo(category, CAP_MUTABLE, Hash160(pub), 0))
      && PaysMarker(tx.outputs, name)
  {
    hide ParseTx, Encode, MetadataIn, TokenIndex, Total, EstimateFee, NameOutputs, WithChange, PaysMarker;
    NameTxParses([nft] + funding, pkh, category, FN_REBIND, name, pub, RebindChange(nft, funding), unlocking);
    assert Outpoints(RebindTx(nft, funding, pkh, name, category, pub).inputs)[0] == PointOf(nft);
  }

  lemma {:induction false} OneMoreHop(l: Ledger, category: Bytes, p: ParsedInput, n: nat, r: ParsedInput)
    requires Next(l, category, Custody(l, category, p, n)) == Some(r)
    ensures Custody(l, category, p, n + 1) == r
    decreases n
  {
    hide Next;
    if n > 0 && Next(l, category, p).Some? {
      OneMoreHop(l, category, Next(l, category, p).value, n - 1, r);
    } else {
      assert Custody(l, category, r, 0) == r;
    }
  }

  lemma {:induction false} CustodyEnds(l: Ledger, category: Bytes, p: ParsedInput, n: nat, m: nat)
    requires n <= m && Next(l, category, Custody(l, category, p, n)).None?
    ensures Custody(l, category, p, m) == Custody(l, category, p, n)
    decreases m
  {
    hide Next;
    if n == 0 {
    } else if Next(l, category, p).Some? {
      CustodyEnds(l, category, Next(l, category, p).value, n - 1, m - 1);
    }
  }

  /** Where the token is once a transaction has spent it and carried it on to an output that is still unspent. */
  lemma TokenMoves(l: Ledger, category: Bytes, p: ParsedInput, n: nat, t: Bytes)
    requires Sound(l) && SpentBy(l, Custody(l, category, p, n), t) && n < MAX_CUSTODY_HOPS
    requires TokenIndex(l.Parsed(t).value.outputs, category) == Some(0)
    requires forall u :: !SpentBy(l, ParsedInput(t, 0), u)
    ensures Custody(l, category, p, MAX_CUSTODY_HOPS) == ParsedInput(t, 0)
  {
    hide Custody, TokenIndex, ParseTx, Sound;
    NextOnSpend(l, category, Custody(l, category, p, n), t);
    OneMoreHop(l, category, p, n, ParsedInput(t, 0));
    assert Next(l, category, ParsedInput(t, 0)) == None;
    CustodyEnds(l, category, p, n + 1, MAX_CUSTODY_HOPS);
  }

  /** The owner changes with the token: once the bytes of a rebind that spends a resolved name's token are confirmed
      on the chain and the token has not moved on, resolving the name returns the new key. */
  lemma RebindTakesOver(l: Ledger, heights: map<Bytes, int>, minConf: int, h: Item, category: Bytes, hops: nat,
                        nft: Coin, funding: seq<Coin>, pkh: Hash20, name: Bytes, pub: Bytes, unlocking: seq<Bytes>,
                        raw: Bytes)
    requires Sound(l) && Complete(l)
    requires Winner(l, name, minConf, l.History(MarkerScript(name)), false) == Found((h, category))
    requires MintPoint(l, h, category).Some? && hops < MAX_CUSTODY_HOPS
      && Custody(l, category, MintPoint(l, h, category).value, hops) == PointOf(nft)
    requires WellSized([nft] + funding, name, pub, unlocking) && KeyParses(pub) && |category| == 32
      && nft.value + Total(funding) < 0x8000_0000_0000_0000
    requires Encodable(RebindTx(nft, funding, pkh, name, category, pub), unlocking)
      && raw == Encode(RebindTx(nft, funding, pkh, name, category, pub), unlocking)
    requires Listing(l, heights) && TxId(raw) in heights && Confirmed(heights[TxId(raw)], l.tip, minConf)
      && TxId(raw) in l.txs && l.txs[TxId(raw)] == raw
    requires forall t :: !SpentBy(l, ParsedInput(TxId(raw), 0), t)
    requires var scan := l.History(MarkerScript(name));
      forall p :: RevealedIn(Revealed(l, name, minConf), scan, p) && Hash160(p) == Hash160(pub) ==> p == pub
    ensures Owner(l, name, minConf) == Found(pub)
  {
    hide ParseTx, Encode, MetadataIn, TokenIndex, MarkerScript, Custody, Winner, Best, Bindings, Sound, Complete, Total,
         Commitment, RebindTx, PaysMarker, Listing;
    var rv, scan, bound: Bytes := Revealed(l, name, minConf), l.History(MarkerScript(name)), Hash160(pub);
    RebindParses(nft, funding, pkh, name, category, pub, unlocking);
    TokenMoves(l, category, MintPoint(l, h, category).value, hops, TxId(raw));
    CommitmentFollowsCustody(l, h, category);
    assert Commitment(l, h.txid, category) == Found(bound);
    OwnerExactly(l, name, minConf, scan, false, h, category, bound);
    MarkerListed(l, heights, TxId(raw), name);
    assert rv(Item(TxId(raw), heights[TxId(raw)])) == Some((FN_REBIND, pub));
    assert RevealedIn(rv, scan, pub);
    assert OldestHistory(scan) == (scan, false) by {
      WithinScan(l, MarkerScript(name));
    }
  }

  lemma WithinScan(l: Ledger, script: Bytes)
    requires Complete(l)
    ensures |l.History(script)| <= MAX_HISTORY_SCAN
  {
  }
}
