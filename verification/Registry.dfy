/** Resolving a name to its owner's key on a modelled ledger (internal/bch/registry_bch.go). */
module Registry {
  import opened Bytes
  import opened LittleEndian
  import opened BchTx
  import opened OpReturn
  import opened Script
  import opened Ordering

  const MAX_CUSTODY_HOPS: nat := 64
  const MAX_HISTORY_SCAN: nat := 512

  /** Transaction ids are in internal byte order throughout. */
  datatype Item = Item(txid: Bytes, height: int)

  /** What an Electrum server answers from: the tip, the raw transactions and the history of each locking script. */
  datatype Ledger = Ledger(tip: int, txs: map<Bytes, Bytes>, histories: map<Bytes, seq<Item>>) {
    function History(script: Bytes): seq<Item> {
      if script in histories then histories[script] else []
    }

    function Parsed(txid: Bytes): Option<ParsedTx> {
      ParsedIn(txs, txid)
    }
  }

  function ParsedIn(txs: map<Bytes, Bytes>, txid: Bytes): Option<ParsedTx> {
    if txid in txs then ParseTx(txs[txid]) else None
  }

  /** A definitive answer, a definitive absence, a scan that was cut short, or a failed query. */
  datatype Lookup<T> = Found(value: T) | NotFound | Truncated | Failed

  predicate Confirmed(height: int, tip: int, minConf: int) {
    height > 0 && tip - height + 1 >= minConf
  }

  function OldestHistory(h: seq<Item>): (seq<Item>, bool) {
    if |h| <= MAX_HISTORY_SCAN then (h, false) else (h[..MAX_HISTORY_SCAN], true)
  }

  /** The most recent entries, in the order given. */
  function NewestHistory(h: seq<Item>): (seq<Item>, bool) {
    if |h| <= MAX_HISTORY_SCAN then (h, false) else (h[|h| - MAX_HISTORY_SCAN..], true)
  }

  // ---------------------------------------------------------------- what a transaction announces

  /** The tag and revealed key of an announcement about this name. */
  function Announced(pushes: seq<Bytes>, name: Bytes): Option<(Bytes, Bytes)> {
    if |pushes| >= 3 && (pushes[0] == FN_CLAIM || pushes[0] == FN_REBIND) && pushes[1] == name && KeyParses(pushes[2])
    then Some((pushes[0], pushes[2])) else None
  }

  function MetadataIn(outputs: seq<TxOutput>, name: Bytes): Option<(Bytes, Bytes)> {
    if outputs == [] then None
    else
      var a := Announced(ParseOpReturn(outputs[0].script), name);
      if a.Some? then a else MetadataIn(outputs[1..], name)
  }

  method ParseFNMetadata(tx: ParsedTx, name: Bytes) returns (r: Option<(Bytes, Bytes)>)
    ensures r == MetadataIn(tx.outputs, name)
  {
    for i := 0 to |tx.outputs|
      invariant MetadataIn(tx.outputs, name) == MetadataIn(tx.outputs[i..], name)
    {
      assert tx.outputs[i..][1..] == tx.outputs[i + 1..];
      var pushes := ReadOpReturn(tx.outputs[i].script);
      if |pushes| < 3 {
        continue;
      }
      if pushes[0] != FN_CLAIM && pushes[0] != FN_REBIND {
        continue;
      }
      if pushes[1] != name {
        continue;
      }
      if !KeyParses(pushes[2]) {
        continue;
      }
      return Some((pushes[0], pushes[2]));
    }
    r := None;
  }

  /** The output's pushes begin with "FN01" or "FN02", this very name, and something that parses as a key. */
  predicate SpeaksOf(o: TxOutput, name: Bytes) {
    var ps := ParseOpReturn(o.script);
    |ps| >= 3 && ps[0] in {[0x46, 0x4e, 0x30, 0x31], [0x46, 0x4e, 0x30, 0x32]} && ps[1] == name && KeyParses(ps[2])
  }

  /** What a transaction announces about a name is what the first output that speaks of it says, and nothing when none
      does. */
  lemma {:induction false} MetadataExactly(outputs: seq<TxOutput>, name: Bytes)
    ensures match MetadataIn(outputs, name)
            case None => forall o :: o in outputs ==> !SpeaksOf(o, name)
            case Some((tag, pub)) =>
              exists i :: 0 <= i < |outputs| && SpeaksOf(outputs[i], name)
                && tag == ParseOpReturn(outputs[i].script)[0] && pub == ParseOpReturn(outputs[i].script)[2]
                && forall j :: 0 <= j < i ==> !SpeaksOf(outputs[j], name)
  {
    hide ParseOpReturn;
    if outputs != [] {
      MetadataExactly(outputs[1..], name);
      assert outputs == [outputs[0]] + outputs[1..];
      if !SpeaksOf(outputs[0], name) && MetadataIn(outputs[1..], name).Some? {
        var (tag, pub) := MetadataIn(outputs[1..], name).value;
        var i :| 0 <= i < |outputs[1..]| && SpeaksOf(outputs[1..][i], name)
          && tag == ParseOpReturn(outputs[1..][i].script)[0] && pub == ParseOpReturn(outputs[1..][i].script)[2]
          && forall j :: 0 <= j < i ==> !SpeaksOf(outputs[1..][j], name);
        assert outputs[i + 1] == outputs[1..][i];
        assert forall j :: 1 <= j < i + 1 ==> outputs[j] == outputs[1..][j - 1];
      }
    }
  }

  /** The category a claim mints: the transaction spent by its first input that spends output 0. */
  function CategoryOf(inputs: seq<ParsedInput>): (r: Option<Bytes>)
    ensures r.Some? ==> exists i :: 0 <= i < |inputs| && inputs[i] == ParsedInput(r.value, 0)
                          && forall j :: 0 <= j < i ==> inputs[j].prevIndex > 0
    ensures r.None? ==> forall i :: i in inputs ==> i.prevIndex > 0
  {
    if inputs == [] then None
    else if inputs[0].prevIndex == 0 then Some(inputs[0].prevTxId)
    else CategoryOf(inputs[1..])
  }

  method GenesisCategory(tx: ParsedTx) returns (r: Option<Bytes>)
    ensures r == CategoryOf(tx.inputs)
  {
    for i := 0 to |tx.inputs|
      invariant CategoryOf(tx.inputs) == CategoryOf(tx.inputs[i..])
    {
      assert tx.inputs[i..][1..] == tx.inputs[i + 1..];
      if tx.inputs[i].prevIndex == 0 {
        return Some(tx.inputs[i].prevTxId);
      }
    }
    r := None;
  }

  predicate Carries(o: TxOutput, category: Bytes) {
    o.token.Some? && o.token.value.category == category
  }

  /** The first output that carries the category. */
  function TokenIndex(outputs: seq<TxOutput>, category: Bytes): (r: Option<nat>)
    ensures r.Some? ==> r.value < |outputs| && outputs[r.value].token.Some?
                        && outputs[r.value].token.value.category == category
    ensures r.Some? ==> forall i :: 0 <= i < r.value && outputs[i].token.Some? ==>
                          outputs[i].token.value.category != category
    ensures r.None? ==> forall o :: o in outputs && o.token.Some? ==> o.token.value.category != category
  {
    if outputs == [] then None
    else if Carries(outputs[0], category) then Some(0)
    else match TokenIndex(outputs[1..], category) case None => None case Some(i) => Some(i + 1)
  }

  // ---------------------------------------------------------------- scanning a history

  type Reveal = Item -> Option<(Bytes, Bytes)>

  /** What a confirmed history entry announces about the name; the histories themselves play no part. */
  function RevealedBy(tip: int, txs: map<Bytes, Bytes>, name: Bytes, minConf: int): Reveal {
    (h: Item) =>
      if !Confirmed(h.height, tip, minConf) then None
      else match ParsedIn(txs, h.txid) case None => None case Some(tx) => MetadataIn(tx.outputs, name)
  }

  function Revealed(l: Ledger, name: Bytes, minConf: int): Reveal {
    RevealedBy(l.tip, l.txs, name, minConf)
  }

  predicate Earlier(a: Item, b: Item) {
    a.height < b.height || (a.height == b.height && Before(a.txid, b.txid))
  }

  predicate Claims(rv: Reveal, h: Item) {
    rv(h).Some? && rv(h).value.0 == FN_CLAIM
  }

  /** The earliest claim of a scan, ties going to the smaller transaction id. */
  function Best(rv: Reveal, scan: seq<Item>): Option<Item> {
    if scan == [] then None
    else
      var b, h := Best(rv, scan[..|scan| - 1]), scan[|scan| - 1];
      if Claims(rv, h) && (b.None? || Earlier(h, b.value)) then Some(h) else b
  }

  /** The revealed keys of a scan under their hashes. */
  function Bindings(rv: Reveal, scan: seq<Item>): map<Bytes, Bytes> {
    if scan == [] then map[]
    else
      var m, h := Bindings(rv, scan[..|scan| - 1]), scan[|scan| - 1];
      if rv(h).Some? then m[Hash160(rv(h).value.1) := rv(h).value.1] else m
  }

  /** Some confirmed entry cannot be fetched. */
  predicate Unfetched(l: Ledger, scan: seq<Item>, minConf: int) {
    exists h :: h in scan && Confirmed(h.height, l.tip, minConf) && h.txid !in l.txs
  }

  lemma {:induction false} BestIsEarliest(rv: Reveal, scan: seq<Item>)
    ensures Best(rv, scan).None? <==> forall h :: h in scan ==> !Claims(rv, h)
    ensures Best(rv, scan).Some? ==> Best(rv, scan).value in scan && Claims(rv, Best(rv, scan).value)
    ensures Best(rv, scan).Some? ==>
      forall h :: h in scan && Claims(rv, h) ==> h == Best(rv, scan).value || Earlier(Best(rv, scan).value, h)
  {
    if scan != [] {
      var init, h := scan[..|scan| - 1], scan[|scan| - 1];
      assert scan == init + [h];
      BestIsEarliest(rv, init);
      if Claims(rv, h) && Best(rv, init).Some? {
        Compared(rv, init, h);
      }
    }
  }

  lemma EarlierTotal(a: Item, b: Item)
    ensures a == b || Earlier(a, b) || Earlier(b, a)
    ensures !(Earlier(a, b) && Earlier(b, a))
  {
    BeforeTotal(a.txid, b.txid);
    BeforeStrict(a.txid);
    if Before(a.txid, b.txid) && Before(b.txid, a.txid) {
      BeforeTransitive(a.txid, b.txid, a.txid);
    }
  }

  lemma EarlierTransitive(a: Item, b: Item, c: Item)
    requires Earlier(a, b) && Earlier(b, c)
    ensures Earlier(a, c)
  {
    if a.height == b.height == c.height {
      BeforeTransitive(a.txid, b.txid, c.txid);
    }
  }

  lemma Compared(rv: Reveal, init: seq<Item>, h: Item)
    requires Best(rv, init).Some?
    requires forall k :: k in init && Claims(rv, k) ==> k == Best(rv, init).value || Earlier(Best(rv, init).value, k)
    ensures var b := Best(rv, init).value;
      if Earlier(h, b) then forall k :: k in init && Claims(rv, k) ==> Earlier(h, k) else h == b || Earlier(b, h)
  {
    var b := Best(rv, init).value;
    EarlierTotal(h, b);
    if Earlier(h, b) {
      forall k | k in init && Claims(rv, k) ensures Earlier(h, k) {
        if k != b {
          EarlierTransitive(h, b, k);
        }
      }
    }
  }

  /** The winner depends only on which entries were scanned, not on their order. */
  lemma BestIgnoresOrder(rv: Reveal, a: seq<Item>, b: seq<Item>)
    requires forall h :: h in a <==> h in b
    ensures Best(rv, a) == Best(rv, b)
  {
    BestIsEarliest(rv, a);
    BestIsEarliest(rv, b);
    if Best(rv, a).Some? && Best(rv, b).Some? {
      EarlierTotal(Best(rv, a).value, Best(rv, b).value);
    }
  }

  /** A hash is bound exactly when some entry reveals a key with that hash, and to such a key. */
  lemma {:induction false} BindingsExactly(rv: Reveal, scan: seq<Item>, k: Bytes)
    ensures k in Bindings(rv, scan) <==> exists h :: h in scan && rv(h).Some? && Hash160(rv(h).value.1) == k
    ensures k in Bindings(rv, scan) ==>
      && Hash160(Bindings(rv, scan)[k]) == k
      && exists h :: h in scan && rv(h).Some? && rv(h).value.1 == Bindings(rv, scan)[k]
  {
    if scan != [] {
      var init, last := scan[..|scan| - 1], scan[|scan| - 1];
      assert scan == init + [last];
      BindingsExactly(rv, init, k);
      if rv(last).Some? && Hash160(rv(last).value.1) == k {
        assert last in scan;
      }
      assert forall h :: h in init ==> h in scan;
    }
  }

  // ---------------------------------------------------------------- the custody chain

  /** The newest scanned transaction that spends the outpoint, in raw form. */
  function SpenderIn(l: Ledger, scan: seq<Item>, p: ParsedInput): Lookup<Bytes> {
    if scan == [] then NotFound
    else
      var h := scan[|scan| - 1];
      if h.txid !in l.txs then Failed
      else if l.Parsed(h.txid).Some? && p in l.Parsed(h.txid).value.inputs then Found(l.txs[h.txid])
      else SpenderIn(l, scan[..|scan| - 1], p)
  }

  /** Not finding a spender means unspent, unless the scan was cut short. */
  function Spender(l: Ledger, script: Bytes, p: ParsedInput): Lookup<Bytes> {
    var (scan, truncated) := NewestHistory(l.History(script));
    var r := SpenderIn(l, scan, p);
    if r.NotFound? && truncated then Truncated else r
  }

  function Vout(i: nat): uint32 {
    i % 0x1_0000_0000
  }

  /** Follow the token from its current place, at most `hops` times. */
  function Walk(l: Ledger, category: Bytes, p: ParsedInput, script: Bytes, commitment: Bytes, hops: nat): Lookup<Bytes>
    decreases hops
  {
    if hops == 0 then Found(commitment)
    else
      match Spender(l, script, p)
      case NotFound => Found(commitment)
      case Truncated => Truncated
      case Failed => Failed
      case Found(raw) =>
        match ParseTx(raw)
        case None => Failed
        case Some(tx) =>
          match TokenIndex(tx.outputs, category)
          case None => Found(commitment)
          case Some(i) =>
            var o := tx.outputs[i];
            Walk(l, category, ParsedInput(TxId(raw), Vout(i)), o.script, o.token.value.commitment, hops - 1)
  }

  function Commitment(l: Ledger, claimTxid: Bytes, category: Bytes): Lookup<Bytes> {
    match l.Parsed(claimTxid)
    case None => Failed
    case Some(tx) =>
      match TokenIndex(tx.outputs, category)
      case None => NotFound
      case Some(i) =>
        var o := tx.outputs[i];
        Walk(l, category, ParsedInput(claimTxid, Vout(i)), o.script, o.token.value.commitment, MAX_CUSTODY_HOPS)
  }

  method FindToken(outputs: seq<TxOutput>, category: Bytes) returns (r: Option<nat>)
    ensures r == TokenIndex(outputs, category)
  {
    for i := 0 to |outputs|
      invariant match TokenIndex(outputs[i..], category)
                case None => TokenIndex(outputs, category) == None
                case Some(k) => TokenIndex(outputs, category) == Some(i + k)
    {
      assert outputs[i..][1..] == outputs[i + 1..];
      if outputs[i].token.Some? && outputs[i].token.value.category == category {
        return Some(i);
      }
    }
    r := None;
  }

  method FindSpender(l: Ledger, script: Bytes, txid: Bytes, vout: uint32) returns (r: Lookup<Bytes>)
    ensures r == Spender(l, script, ParsedInput(txid, vout))
    ensures r.Found? ==> ParseTx(r.value).Some?
  {
    hide ParseTx;
    var (scan, truncated) := NewestHistory(l.History(script));
    var i := |scan|;
    assert scan[..i] == scan;
    while i > 0
      invariant 0 <= i <= |scan|
      invariant SpenderIn(l, scan, ParsedInput(txid, vout)) == SpenderIn(l, scan[..i], ParsedInput(txid, vout))
    {
      i := i - 1;
      assert scan[..i + 1][..i] == scan[..i];
      if scan[i].txid !in l.txs {
        return Failed;
      }
      var tx := ParseTx(l.txs[scan[i].txid]);
      if tx.None? {
        continue;
      }
      for j := 0 to |tx.value.inputs|
        invariant ParsedInput(txid, vout) !in tx.value.inputs[..j]
      {
        if tx.value.inputs[j].prevIndex == vout && tx.value.inputs[j].prevTxId == txid {
          return Found(l.txs[scan[i].txid]);
        }
      }
      assert tx.value.inputs[..|tx.value.inputs|] == tx.value.inputs;
    }
    r := if truncated then Truncated else NotFound;
  }

  /** The live commitment of the name token that a claim minted. */
  method CurrentCommitment(l: Ledger, claimTxid: Bytes, category: Bytes) returns (r: Lookup<Bytes>)
    ensures r == Commitment(l, claimTxid, category)
  {
    hide ParseTx, Spender;
    if claimTxid !in l.txs {
      return Failed;
    }
    var claim := ParseTx(l.txs[claimTxid]);
    if claim.None? {
      return Failed;
    }
    var mint := FindToken(claim.value.outputs, category);
    if mint.None? {
      return NotFound;
    }
    var curTxid, curVout := claimTxid, Vout(mint.value);
    var minted := claim.value.outputs[mint.value];
    var commitment, curScript := minted.token.value.commitment, minted.script;
    for hop := 0 to MAX_CUSTODY_HOPS
      invariant Commitment(l, claimTxid, category)
             == Walk(l, category, ParsedInput(curTxid, curVout), curScript, commitment, MAX_CUSTODY_HOPS - hop)
    {
      var found := FindSpender(l, curScript, curTxid, curVout);
      if found.Failed? || found.Truncated? {
        return found;
      }
      if found.NotFound? {
        return Found(commitment);
      }
      var spend := ParseTx(found.value).value;
      var next := FindToken(spend.outputs, category);
      if next.None? {
        return Found(commitment);
      }
      commitment, curScript := spend.outputs[next.value].token.value.commitment, spend.outputs[next.value].script;
      curTxid, curVout := TxId(found.value), Vout(next.value);
    }
    r := Found(commitment);
  }

  // ---------------------------------------------------------------- claims and owners

  /** Why a scan without an answer has none. */
  function Missing<T>(truncated: bool): Lookup<T> {
    if truncated then Truncated else NotFound
  }

  /** The claim that wins a scan, with the category it mints. */
  function Winner(l: Ledger, name: Bytes, minConf: int, scan: seq<Item>, truncated: bool): Lookup<(Item, Bytes)> {
    if Unfetched(l, scan, minConf) then Failed
    else
      match Best(Revealed(l, name, minConf), scan)
      case None => Missing(truncated)
      case Some(h) =>
        match l.Parsed(h.txid)
        case None => Failed
        case Some(tx) => match CategoryOf(tx.inputs) case None => NotFound case Some(category) => Found((h, category))
  }

  /** The owner a scan leads to: the revealed key whose hash is the live commitment. */
  function OwnerIn(l: Ledger, name: Bytes, minConf: int, scan: seq<Item>, truncated: bool): Lookup<Bytes> {
    match Winner(l, name, minConf, scan, truncated)
    case NotFound => NotFound
    case Truncated => Truncated
    case Failed => Failed
    case Found((h, category)) =>
      match Commitment(l, h.txid, category)
      case NotFound => NotFound
      case Truncated => Truncated
      case Failed => Failed
      case Found(c) =>
        if c in Bindings(Revealed(l, name, minConf), scan) then Found(Bindings(Revealed(l, name, minConf), scan)[c])
        else Missing(truncated)
  }

  function Owner(l: Ledger, name: Bytes, minConf: int): Lookup<Bytes> {
    var (scan, truncated) := OldestHistory(l.History(MarkerScript(name)));
    OwnerIn(l, name, minConf, scan, truncated)
  }

  /** What one entry of a scan turns out to be: fetched or not, and what it announces. */
  method Inspect(l: Ledger, name: Bytes, minConf: int, h: Item) returns (fetched: bool, a: Option<(Bytes, Bytes)>)
    ensures fetched <==> !(Confirmed(h.height, l.tip, minConf) && h.txid !in l.txs)
    ensures fetched ==> a == Revealed(l, name, minConf)(h)
    ensures a.Some? ==> h.height > 0
  {
    hide ParseTx;
    if !Confirmed(h.height, l.tip, minConf) {
      return true, None;
    }
    if h.txid !in l.txs {
      return false, None;
    }
    var tx := ParseTx(l.txs[h.txid]);
    if tx.None? {
      return true, None;
    }
    fetched := true;
    a := ParseFNMetadata(tx.value, name);
  }

  /** The scan loop of resolve: every binding, and the earliest claim. */
  method Scan(l: Ledger, name: Bytes, minConf: int, scan: seq<Item>)
      returns (ok: bool, bindings: map<Bytes, Bytes>, claimTxid: Bytes, claimHeight: int)
    ensures ok <==> !Unfetched(l, scan, minConf)
    ensures ok ==> bindings == Bindings(Revealed(l, name, minConf), scan)
    ensures ok ==>
      Best(Revealed(l, name, minConf), scan) == (if claimHeight == -1 then None else Some(Item(claimTxid, claimHeight)))
  {
    hide Revealed;
    bindings, claimTxid, claimHeight := map[], [], -1;
    ghost var rv := Revealed(l, name, minConf);
    for i := 0 to |scan|
      invariant !Unfetched(l, scan[..i], minConf)
      invariant bindings == Bindings(rv, scan[..i])
      invariant claimHeight == -1 || claimHeight > 0
      invariant Best(rv, scan[..i]) == if claimHeight == -1 then None else Some(Item(claimTxid, claimHeight))
    {
      var h := scan[i];
      assert scan[..i + 1][..i] == scan[..i];
      var fetched, a := Inspect(l, name, minConf, h);
      if !fetched {
        return false, bindings, claimTxid, claimHeight;
      }
      UnfetchedStep(l, scan, minConf, i);
      if a.None? {
        continue;
      }
      bindings := bindings[Hash160(a.value.1) := a.value.1];
      if a.value.0 == FN_CLAIM {
        if claimHeight == -1 || h.height < claimHeight || (h.height == claimHeight && Before(h.txid, claimTxid)) {
          claimTxid, claimHeight := h.txid, h.height;
        }
      }
    }
    assert scan[..|scan|] == scan;
    ok := true;
  }

  lemma UnfetchedStep(l: Ledger, scan: seq<Item>, minConf: int, i: nat)
    requires i < |scan| && !Unfetched(l, scan[..i], minConf)
    requires !(Confirmed(scan[i].height, l.tip, minConf) && scan[i].txid !in l.txs)
    ensures !Unfetched(l, scan[..i + 1], minConf)
  {
    forall h | h in scan[..i + 1] ensures !(Confirmed(h.height, l.tip, minConf) && h.txid !in l.txs) {
      assert h in scan[..i] || h == scan[i];
    }
  }

  /** The claim that decides who a name's token is minted to. */
  method WinningClaim(l: Ledger, name: Bytes, minConf: int) returns (r: Lookup<(Item, Bytes)>)
    ensures var (scan, truncated) := OldestHistory(l.History(MarkerScript(name)));
      r == Winner(l, name, minConf, scan, truncated)
  {
    hide Revealed, Best, ParseTx, MarkerScript;
    var (scan, truncated) := OldestHistory(l.History(MarkerScript(name)));
    var claim: Option<Item> := None;
    ghost var rv := Revealed(l, name, minConf);
    NoBest(rv);
    assert scan[..0] == [];
    for i := 0 to |scan|
      invariant !Unfetched(l, scan[..i], minConf) && Best(rv, scan[..i]) == claim
    {
      var h := scan[i];
      BestStep(rv, scan, i);
      var fetched, a := Inspect(l, name, minConf, h);
      if !fetched {
        return Failed;
      }
      UnfetchedStep(l, scan, minConf, i);
      if a.None? || a.value.0 != FN_CLAIM {
        continue;
      }
      if claim.None? || h.height < claim.value.height
         || (h.height == claim.value.height && Before(h.txid, claim.value.txid)) {
        claim := Some(h);
      }
    }
    assert scan[..|scan|] == scan;
    if claim.None? {
      return Missing(truncated);
    }
    var tx := l.Parsed(claim.value.txid);
    if tx.None? {
      return Failed;
    }
    var category := GenesisCategory(tx.value);
    r := if category.None? then NotFound else Found((claim.value, category.value));
  }

  lemma NoBest(rv: Reveal)
    ensures Best(rv, []) == None
  {
  }

  lemma BestStep(rv: Reveal, scan: seq<Item>, i: nat)
    requires i < |scan|
    ensures var b := Best(rv, scan[..i]);
      Best(rv, scan[..i + 1]) ==
        if Claims(rv, scan[i]) && (b.None? || Earlier(scan[i], b.value)) then Some(scan[i]) else b
  {
    assert scan[..i + 1][..i] == scan[..i];
  }

  method Resolve(l: Ledger, name: Bytes, minConf: int) returns (r: Lookup<Bytes>)
    ensures r == Owner(l, name, minConf)
  {
    hide Revealed, Commitment, Bindings, Best, ParseTx, Unfetched, MarkerScript;
    var history := l.History(MarkerScript(name));
    if history == [] {
      NothingScanned(l, name, minConf);
      return NotFound;
    }
    var (scan, truncated) := OldestHistory(history);
    var ok, bindings, claimTxid, claimHeight := Scan(l, name, minConf, scan);
    if !ok {
      return Failed;
    }
    if claimHeight == -1 {
      return Missing(truncated);
    }
    var tx := l.Parsed(claimTxid);
    if tx.None? {
      return Failed;
    }
    var category := GenesisCategory(tx.value);
    if category.None? {
      return NotFound;
    }
    var commitment := CurrentCommitment(l, claimTxid, category.value);
    if !commitment.Found? {
      return commitment;
    }
    if commitment.value in bindings {
      return Found(bindings[commitment.value]);
    }
    r := Missing(truncated);
  }

  lemma NothingScanned(l: Ledger, name: Bytes, minConf: int)
    ensures OwnerIn(l, name, minConf, [], false) == NotFound
  {
    assert !Unfetched(l, [], minConf);
  }
}
