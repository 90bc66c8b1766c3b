/** The wire formats byte by byte, against which both their writers and their readers are held (internal/bch/bchtx.go,
    internal/node/contentnet.go, internal/node/replicate.go; CHIP-2022-02-CashTokens, section "Token Encoding"). */
module Formats {
  import opened Bytes
  import opened LittleEndian
  import opened Content
  import opened Wire
  import opened Chunking
  import opened PushProtocol
  import opened OpReturn
  import opened BchTx
  import opened Script
  import opened BchWallet
  import Publishing
  import ContentServiceCode

  // ---------------------------------------------------------------- numbers

  /** The least significant byte first. */
  lemma LittleEndianBytes(n: nat)
    ensures LE(n, 2) == [n % 256, n / 256 % 256]
    ensures LE(n, 4) == [n % 256, n / 0x100 % 256, n / 0x1_0000 % 256, n / 0x100_0000 % 256]
    ensures LE(n, 8) == LE(n, 4) + LE(n / 0x1_0000_0000, 4)
  {
    hide LE;
    var n1 := n / 256;
    var n2 := n1 / 256;
    var n3 := n2 / 256;
    var n4 := n3 / 256;
    assert n2 == n / 0x1_0000 && n3 == n / 0x100_0000 && n4 == n / 0x1_0000_0000;
    FirstByte(n, 2);
    FirstByte(n1, 1);
    FirstByte(n, 4);
    FirstByte(n1, 3);
    FirstByte(n2, 2);
    FirstByte(n3, 1);
    FirstByte(n, 8);
    FirstByte(n1, 7);
    FirstByte(n2, 6);
    FirstByte(n3, 5);
    NoBytes(n2);
    NoBytes(n4);
  }

  lemma FirstByte(n: nat, k: nat)
    requires k > 0
    ensures LE(n, k) == [n % 256] + LE(n / 256, k - 1)
  {
  }

  lemma NoBytes(n: nat)
    ensures LE(n, 0) == []
  {
  }

  /** A CompactSize integer takes one byte up to 252, and otherwise 253, 254 or 255 and the fewest of two, four or eight
      bytes that hold it, least significant first. */
  lemma CompactSizeBytes(n: uint64)
    ensures |VarInt(n)| == if n < 253 then 1 else if n < 0x1_0000 then 3 else if n < 0x1_0000_0000 then 5 else 9
    ensures VarInt(n)[0] == if n < 253 then n else if n < 0x1_0000 then 253 else if n < 0x1_0000_0000 then 254 else 255
    ensures 253 <= n < 0x1_0000 ==> VarInt(n)[1..] == [n % 256, n / 256]
    ensures 0x1_0000 <= n < 0x1_0000_0000 ==>
      VarInt(n)[1..] == [n % 256, n / 0x100 % 256, n / 0x1_0000 % 256, n / 0x100_0000]
    ensures n >= 0x1_0000_0000 ==> VarInt(n)[1..] == LE(n, 8)
  {
    hide LE;
    LittleEndianBytes(n);
  }

  function SevenBits(b: Bytes): nat {
    if b == [] then 0 else b[0] % 128 + 128 * SevenBits(b[1..])
  }

  /** A varint holds seven bits a byte, the least significant first; all bytes but the last have the eighth bit set. */
  lemma {:induction false} VarintBytes(n: nat)
    ensures var b := Uvarint(n);
      SevenBits(b) == n && b[|b| - 1] < 128 && (forall i :: 0 <= i < |b| - 1 ==> b[i] >= 128)
      && (|b| > 1 ==> b[|b| - 1] > 0)
  {
    var b := Uvarint(n);
    if n >= 128 {
      VarintBytes(n / 128);
      var rest := Uvarint(n / 128);
      assert b == [n % 128 + 128] + rest && b[1..] == rest;
      assert forall i :: 1 <= i < |b| ==> b[i] == rest[i - 1];
    } else {
      assert b[1..] == [];
    }
  }

  /** Where a varint ends: after at most ten bytes, at the first without the eighth bit, a tenth holding no more than
      one. */
  predicate EndsAt(b: Bytes, k: nat) {
    && 0 < k <= 10 && k <= |b| && b[k - 1] < 128 && (k == 10 ==> b[9] <= 1)
    && forall i :: 0 <= i < k - 1 ==> b[i] >= 128
  }

  lemma {:induction false} VarintReads(b: Bytes, i: nat, k: nat)
    requires i < k <= 10 && k - i <= |b| && b[k - i - 1] < 128 && (k == 10 ==> b[k - i - 1] <= 1)
    requires forall j :: 0 <= j < k - i - 1 ==> b[j] >= 128
    ensures TakeUvarintAt(b, i) == Some((SevenBits(b[..k - i]), b[k - i..]))
    decreases k - i
  {
    if k - i == 1 {
      assert b[..1] == [b[0]] && [b[0]][1..] == [];
      assert SevenBits([]) == 0;
    } else {
      VarintReads(b[1..], i + 1, k);
      assert b[..k - i][1..] == b[1..][..k - i - 1] && b[1..][k - i - 1..] == b[k - i..];
    }
  }

  lemma {:induction false} VarintEnds(b: Bytes, i: nat) returns (k: nat)
    requires TakeUvarintAt(b, i).Some?
    ensures i < k <= 10 && k - i <= |b| && b[k - i - 1] < 128 && (k == 10 ==> b[k - i - 1] <= 1)
    ensures forall j :: 0 <= j < k - i - 1 ==> b[j] >= 128
    decreases |b|
  {
    if b[0] < 128 {
      k := i + 1;
    } else {
      k := VarintEnds(b[1..], i + 1);
      assert forall j :: 1 <= j < k - i - 1 ==> b[j] == b[1..][j - 1];
    }
  }

  /** A varint is read if and only if it ends so, and then as the number it holds. */
  lemma VarintExactly(b: Bytes)
    ensures TakeUvarint(b).Some? <==> exists k :: EndsAt(b, k)
    ensures forall k: nat :: EndsAt(b, k) ==> TakeUvarint(b) == Some((SevenBits(b[..k]), b[k..]))
  {
    forall k: nat | EndsAt(b, k) ensures TakeUvarint(b) == Some((SevenBits(b[..k]), b[k..])) {
      VarintReads(b, 0, k);
    }
    if TakeUvarint(b).Some? {
      var k := VarintEnds(b, 0);
      assert EndsAt(b, k);
    }
  }

  /** A hash with no bytes or more than 128 is refused on its length, and so is a blob with none, more than the caller
      allows, or more than 32 MiB. */
  lemma LengthsRefused(n: nat, max: nat, rest: Bytes)
    requires n < 0x1_0000_0000_0000_0000
    ensures n == 0 || n > 128 ==> TakeRequest(Uvarint(n) + rest) == None
    ensures n == 0 || n > max || n > 33554432 ==> TakeBlob(Uvarint(n) + rest, max) == None
    ensures n > |rest| ==> TakeRequest(Uvarint(n) + rest) == None && TakeBlob(Uvarint(n) + rest, max) == None
  {
    UvarintRoundTrip(n, rest);
  }

  // ---------------------------------------------------------------- scripts and tokens

  /** A push of up to 75 bytes begins with its length, one of up to 255 with 0x4c and its length, one of up to 65535
      with 0x4d and its length in two bytes. */
  lemma PushBytes(p: Bytes)
    ensures |p| <= 75 ==> Push(p) == [|p|] + p
    ensures 76 <= |p| <= 255 ==> Push(p) == [0x4c, |p|] + p
    ensures 256 <= |p| <= 65535 ==> Push(p) == [0x4d, |p| % 256, |p| / 256] + p
  {
  }

  /** The announcement of a claim or a rebind with a name of up to 75 bytes and a key of up to 75. */
  lemma AnnouncementBytes(tag: Bytes, name: Bytes, pub: Bytes)
    requires |tag| <= 75 && |name| <= 75 && |pub| <= 75
    ensures OpReturnScript([tag, name, pub]) == [0x6a, |tag|] + tag + [|name|] + name + [|pub|] + pub
  {
    hide Push;
    assert [tag, name, pub][1..] == [name, pub] && [name, pub][1..] == [pub] && [pub][1..] == [];
    assert Pushes([pub]) == Push(pub) + [];
    assert Pushes([name, pub]) == Push(name) + Push(pub);
    assert Pushes([tag, name, pub]) == Push(tag) + (Push(name) + Push(pub));
    PushBytes(tag);
    PushBytes(name);
    PushBytes(pub);
  }

  /** No push begins here: an opcode past 0x4d, or a length that runs past the end. */
  predicate NoPush(b: Bytes) {
    || b == [] || b[0] >= 0x4e
    || (b[0] <= 75 && |b| - 1 < b[0])
    || (b[0] == 0x4c && (|b| < 2 || |b| - 2 < b[1]))
    || (b[0] == 0x4d && (|b| < 3 || |b| - 3 < b[1] + 256 * (b[2] as int)))
  }

  /** Reading stops, with what it has, exactly where no push begins. */
  lemma {:induction false} PushesStop(ps: seq<Bytes>, end: Bytes)
    requires (forall p :: p in ps ==> |p| <= 65535) && NoPush(end)
    ensures ParsePushes(Pushes(ps) + end) == ps
    decreases |ps|
  {
    hide TakePush, Push;
    if ps == [] {
      assert Pushes(ps) + end == end;
      NothingTaken(end);
    } else {
      assert ps[0] in ps;
      assert Pushes(ps) + end == Push(ps[0]) + (Pushes(ps[1..]) + end);
      PushRoundTrip(ps[0], Pushes(ps[1..]) + end);
      assert ps[0][..|ps[0]|] == ps[0] && ps[0][|ps[0]|..] + (Pushes(ps[1..]) + end) == Pushes(ps[1..]) + end;
      PushesStop(ps[1..], end);
      assert [ps[0]] + ps[1..] == ps;
    }
  }

  lemma NothingTaken(b: Bytes)
    ensures TakePush(b).None? <==> NoPush(b)
  {
  }

  /** Which tokens may be written: one with an NFT or an amount, a category of 32 bytes, a commitment of up to 40 and
      one of the three capabilities. Their prefix: 0xef, the category, a byte of flags with the capability in its low
      half, the commitment behind its length, the amount. */
  lemma TokenBytes(t: TokenInfo)
    ensures ValidToken(t) <==>
      && |t.category| == 32 && |t.commitment| <= 40 && t.capability <= 2
      && (t.capability > 0 || t.commitment != [] || t.amount > 0)
    ensures ValidToken(t) ==>
      var b := EncodeTokenPrefix(t);
      && |b| >= 34 && b[0] == 0xef && b[1..33] == t.category
      && b[33] / 128 == 0 && b[33] % 16 == t.capability
      && (b[33] / 64 % 2 == 1 <==> t.commitment != [])
      && (b[33] / 32 % 2 == 1 <==> t.capability != 0 || t.commitment != [])
      && (b[33] / 16 % 2 == 1 <==> t.amount > 0)
      && b[34..] == (if t.commitment == [] then [] else [|t.commitment|] + t.commitment)
                    + (if t.amount > 0 then VarInt(t.amount) else [])
  {
  }

  predicate EndsWith(b: Bytes, end: Bytes) {
    |end| <= |b| && b[|b| - |end|..] == end
  }

  lemma EndsThrough(a: Bytes, b: Bytes, c: Bytes)
    requires EndsWith(a, b) && EndsWith(b, c)
    ensures EndsWith(a, c)
  {
    assert a[|a| - |b|..][|b| - |c|..] == a[|a| - |c|..];
  }

  lemma VarIntLeaves(b: Bytes)
    requires TakeVarInt(b).Some?
    ensures EndsWith(b, TakeVarInt(b).value.1)
  {
  }

  lemma CommitmentSplit(f: byte, b: Bytes)
    requires TakeCommitment(f, b).Some?
    ensures var (commitment, b1) := TakeCommitment(f, b).value;
      EndsWith(b, b1) && if f / 64 % 2 == 1 then 1 <= |commitment| <= 40 else commitment == []
  {
    hide TakeVarInt;
    if f / 64 % 2 == 1 {
      VarIntLeaves(b);
      var rest := TakeVarInt(b).value.1;
      assert EndsWith(rest, TakeCommitment(f, b).value.1);
      EndsThrough(b, rest, TakeCommitment(f, b).value.1);
    }
  }

  lemma AmountSplit(f: byte, b: Bytes)
    requires TakeAmount(f, b).Some?
    ensures EndsWith(b, TakeAmount(f, b).value.1) && (f / 16 % 2 == 0 ==> TakeAmount(f, b).value.0 == 0)
  {
    hide TakeVarInt;
    if f / 16 % 2 == 1 {
      VarIntLeaves(b);
    }
  }

  lemma FieldsSplit(category: Bytes, f: byte, b: Bytes)
    requires TakeToken(category, f, b).Some?
    ensures f < 128 && TakeToken(category, f, b).value.0.Some?
    ensures var (token, script) := TakeToken(category, f, b).value; var t := token.value;
      && t.category == category && t.capability == (if f / 32 % 2 == 1 then f % 16 else 0)
      && (if f / 64 % 2 == 1 then 1 <= |t.commitment| <= 40 else t.commitment == [])
      && (f / 16 % 2 == 0 ==> t.amount == 0)
      && EndsWith(b, script)
  {
    hide TakeCommitment, TakeAmount, EndsWith;
    var (commitment, b1) := TakeCommitment(f, b).value;
    CommitmentSplit(f, b);
    AmountSplit(f, b1);
    EndsThrough(b, b1, TakeAmount(f, b1).value.1);
  }

  /** What can be split off locking bytes that begin with 0xef has its fields where `TokenBytes` says, with the unused
      flag clear and a commitment of 1 to 40 bytes if it has one; the script is the end of these bytes. */
  lemma SplitToken(w: Bytes)
    requires w != [] && w[0] == 0xef && SplitTokenPrefix(w).Some?
    ensures |w| >= 34 && w[33] < 128 && SplitTokenPrefix(w).value.0.Some?
    ensures var (token, script) := SplitTokenPrefix(w).value; var t := token.value;
      && t.category == w[1..33] && t.capability == (if w[33] / 32 % 2 == 1 then w[33] % 16 else 0)
      && (if w[33] / 64 % 2 == 1 then 1 <= |t.commitment| <= 40 else t.commitment == [])
      && (w[33] / 16 % 2 == 0 ==> t.amount == 0)
      && EndsWith(w, script)
  {
    hide TakeToken;
    var b := w[1..];
    assert b[..32] == w[1..33] && b[32..][0] == w[33] && b[32..][1..] == w[34..];
    FieldsSplit(w[1..33], w[33], w[34..]);
    assert EndsWith(w, w[34..]);
    EndsThrough(w, w[34..], SplitTokenPrefix(w).value.1);
  }

  /** The locking bytes of a name token: category, a mutable token with a commitment of twenty bytes, and a payment to a
      public key hash. */
  lemma NameTokenBytes(pkh: Hash20, category: Bytes, tag: Bytes, name: Bytes, pub: Bytes)
    requires |category| == 32
    ensures var o := NameOutputs(pkh, category, tag, name, pub)[0];
      && Sized(o)
      && Wrapped(o) == [0xef] + category + [0x61, 20] + Hash160(pub) + [0x76, 0xa9, 20] + pkh + [0x88, 0xac]
  {
  }

  // ---------------------------------------------------------------- the push stream

  /** A length and as many bytes, whatever they are. */
  function TakeField(b: Bytes): Option<(Bytes, Bytes)> {
    match TakeUvarint(b)
    case None => None
    case Some((n, rest)) => TakeBytes(rest, n)
  }

  /** A hash and a blob. */
  function TakePair(b: Bytes): Option<((Bytes, Bytes), Bytes)> {
    match TakeField(b)
    case None => None
    case Some((hash, rest)) =>
      match TakeField(rest)
      case None => None
      case Some((data, end)) => Some(((hash, data), end))
  }

  lemma FieldReads(field: Bytes, rest: Bytes)
    requires |field| < 0x1_0000_0000_0000_0000
    ensures TakeField(Uvarint(|field|) + field + rest) == Some((field, rest))
  {
    UvarintRoundTrip(|field|, field + rest);
    assert Uvarint(|field|) + field + rest == Uvarint(|field|) + (field + rest);
    TakeBytesAppend(field, rest);
  }

  /** An offer is the root behind its length, the size, the number of blobs. */
  lemma OfferInFull(o: Offer, rest: Bytes)
    requires |o.root| < 0x1_0000_0000_0000_0000 && o.size < 0x1_0000_0000_0000_0000
      && o.nblobs < 0x1_0000_0000_0000_0000
    ensures TakeField(OfferBytes(o) + rest) == Some((o.root, Uvarint(o.size) + (Uvarint(o.nblobs) + rest)))
    ensures TakeUvarint(Uvarint(o.size) + (Uvarint(o.nblobs) + rest)) == Some((o.size, Uvarint(o.nblobs) + rest))
    ensures TakeUvarint(Uvarint(o.nblobs) + rest) == Some((o.nblobs, rest))
  {
    hide TakeField, TakeUvarint, Uvarint;
    FieldReads(o.root, Uvarint(o.size) + (Uvarint(o.nblobs) + rest));
    assert OfferBytes(o) + rest == Uvarint(|o.root|) + o.root + (Uvarint(o.size) + (Uvarint(o.nblobs) + rest));
    UvarintRoundTrip(o.size, Uvarint(o.nblobs) + rest);
    UvarintRoundTrip(o.nblobs, rest);
  }

  /** Each blob follows its hash, both behind their lengths. */
  lemma FrameInFull(d: Bytes)
    requires |ContentHash(d)| < 0x1_0000_0000_0000_0000 && |d| < 0x1_0000_0000_0000_0000
    ensures Reads(TakePair, FrameBytes(d), Some((ContentHash(d), d)))
  {
    hide TakeField, Uvarint;
    var h := ContentHash(d);
    forall rest: Bytes ensures TakePair(FrameBytes(d) + rest) == Some(((h, d), rest)) {
      FieldReads(h, Uvarint(|d|) + d + rest);
      FieldReads(d, rest);
      assert FrameBytes(d) + rest == Uvarint(|h|) + h + (Uvarint(|d|) + d + rest);
    }
  }

  /** The frames of a set are its blobs in order, each after its hash, and nothing else. */
  lemma FramesInFull(blobs: seq<Bytes>, rest: Bytes)
    requires forall d :: d in blobs ==>
      |ContentHash(d)| < 0x1_0000_0000_0000_0000 && |d| < 0x1_0000_0000_0000_0000
    ensures TakeMany(TakePair, Frames(blobs) + rest, |blobs|)
         == Some((seq(|blobs|, i requires 0 <= i < |blobs| => (HashesOf(blobs)[i], blobs[i])), rest))
  {
    hide TakePair, FrameBytes, HashesOf;
    var pairs := seq(|blobs|, i requires 0 <= i < |blobs| => (HashesOf(blobs)[i], blobs[i]));
    var rs := seq(|blobs|, i requires 0 <= i < |blobs| => Some(pairs[i]));
    forall i | 0 <= i < |blobs| ensures Reads(TakePair, FrameParts(blobs)[i], rs[i]) {
      HashAt(blobs, i);
      FrameInFull(blobs[i]);
    }
    TakeManyRoundTrip(TakePair, FrameParts(blobs), rs, rest);
    AllOfValues(rs, pairs);
  }

  lemma HashAt(blobs: seq<Bytes>, i: nat)
    requires i < |blobs|
    ensures HashesOf(blobs)[i] == ContentHash(blobs[i])
  {
  }

  /** A receiver looks at no more than the offered size and 148 bytes a blob: two streams alike so far are received
      alike. */
  lemma ReadsNoFurther(a: Bytes, b: Bytes, o: Offer)
    requires var k := o.size + 148 * o.nblobs; |a| >= k && |b| >= k && a[..k] == b[..k]
    ensures ContentServiceCode.ReceiveLimited(a, o) == ContentServiceCode.ReceiveLimited(b, o)
  {
    hide Receive;
    var k := o.size + 148 * o.nblobs;
    assert o.size + Allowance(o.nblobs) == k;
    assert Limited(a, k) == a[..k] == b[..k] == Limited(b, k);
  }

  /** What can be published: up to 1 GiB, in pieces of 8 MiB, with a manifest of up to 32 MiB if it takes more than
      one. */
  lemma PublishLimits(c: Bytes)
    ensures Publishing.Publishable(c) <==>
      |c| <= 1073741824 && (|Pieces(c)| > 1 ==> |EncodeManifest(ManifestOf(c))| <= 33554432)
    ensures |BlobsOf(c)| == if |Pieces(c)| > 1 then |Pieces(c)| + 1 else 1
  {
    PieceLengths(c);
  }

  // ---------------------------------------------------------------- manifests

  /** Bytes are taken for a manifest if and only if they are "freedom-names/manifest@1", a line break, and the body of a
      valid one. */
  lemma ManifestBytes(data: Bytes, m: ChunkManifest)
    ensures DecodeManifest(data) == Some(m) <==>
      && |data| >= 25
      && data[..25] == [102, 114, 101, 101, 100, 111, 109, 45, 110, 97, 109, 101, 115]
                       + [47, 109, 97, 110, 105, 102, 101, 115, 116, 64, 49, 10]
      && UnmarshalBody(data[25..]) == Some(m) && ValidManifest(m)
  {
    hide ValidManifest;
    assert MAGIC == [102, 114, 101, 101, 100, 111, 109, 45, 110, 97, 109, 101, 115]
                    + [47, 109, 97, 110, 105, 102, 101, 115, 116, 64, 49, 10];
    assert |data| >= 25 ==> (MAGIC <= data <==> data[..25] == MAGIC);
  }

  /** A manifest is valid when it names as many chunks as its total size takes at its chunk size, at least two. */
  lemma ManifestCount(m: ChunkManifest)
    ensures ValidManifest(m) <==>
      && 1 <= m.chunkSize <= 33554432 && m.totalSize <= 1073741824 && m.totalSize > m.chunkSize
      && |m.chunks| <= 128 && (m.totalSize + m.chunkSize - 1) / m.chunkSize == |m.chunks|
      && forall h :: h in m.chunks ==> IsContentHash(h)
  {
    hide Times;
    if m.chunkSize >= 1 {
      if |m.chunks| >= 1 {
        TimesIsProduct(|m.chunks| - 1, m.chunkSize);
      }
      TimesIsProduct(|m.chunks|, m.chunkSize);
      AtLeastTwo(m.totalSize, m.chunkSize, |m.chunks|);
    }
  }

  lemma ProductGrows(a: int, b: int, k: nat)
    ensures a <= b ==> a * k <= b * k
  {
  }

  /** Rounding up. */
  lemma Ceiling(s: int, k: int, n: int)
    requires k >= 1
    ensures (s + k - 1) / k == n <==> (n - 1) * k < s <= n * k
  {
    var q := (s + k - 1) / k;
    assert q * k <= s + k - 1 < q * k + k;
    ProductGrows(q + 1, n, k);
    ProductGrows(n + 1, q, k);
    assert (q + 1) * k == q * k + k && (n + 1) * k == n * k + k && (n - 1) * k == n * k - k;
  }

  lemma AtLeastTwo(s: int, k: int, n: nat)
    requires k >= 1
    ensures s > k && (s + k - 1) / k == n <==> n >= 2 && (n - 1) * k < s <= n * k
  {
    Ceiling(s, k, n);
    ProductGrows(1, n - 1, k);
    ProductGrows(n, 1, k);
  }
}
