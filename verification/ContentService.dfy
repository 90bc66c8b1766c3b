/** Publishing, pushing, receiving and fetching on one node
    (internal/node/contentnet.go, internal/node/replicate.go). */
module ContentServiceCode {
  import opened Bytes
  import opened LittleEndian
  import opened Content
  import opened IndexModel
  import opened ContentIndexCode
  import opened Chunking
  import opened Wire
  import opened PushProtocol
  import opened Transfers
  import opened Publishing

  const DECLINE: byte := 0
  const ACCEPT: byte := 1
  const HAVE: byte := 2

  // ---------------------------------------------------------------- reading the wire

  method ReadUvarint(r: ByteReader) returns (v: Option<nat>)
    requires r.Valid()
    modifies r
    ensures r.Valid()
    ensures match TakeUvarint(old(r.Rest())) case None => v == None
            case Some((x, rest)) => v == Some(x) && r.Rest() == rest
  {
    hide TakeUvarintAt, Carried;
    var x: nat, scale: nat, i: nat := 0, 1, 0;
    ghost var start := r.Rest();
    NothingCarried(start);
    while i < MAX_VARINT_LEN
      invariant r.Valid() && i <= MAX_VARINT_LEN
      invariant TakeUvarintAt(start, 0) == Carried(x, scale, TakeUvarintAt(r.Rest(), i))
      decreases MAX_VARINT_LEN - i
    {
      CarryOn(r.Rest(), i, x, scale);
      var b := r.ReadByte();
      if b.None? {
        return None;
      }
      if b.value < 128 {
        if i == MAX_VARINT_LEN - 1 && b.value > 1 {
          return None;
        }
        return Some(x + scale * b.value);
      }
      x := x + scale * (b.value - 128);
      scale := scale * 128;
      i := i + 1;
    }
    CarryOn(r.Rest(), i, x, scale);
    v := None;
  }

  /** The number that the groups read so far and those still to come make up. */
  function Carried(x: nat, scale: nat, later: Option<(nat, Bytes)>): Option<(nat, Bytes)> {
    match later case None => None case Some((w, rest)) => Some((x + scale * w, rest))
  }

  lemma NothingCarried(start: Bytes)
    ensures TakeUvarintAt(start, 0) == Carried(0, 1, TakeUvarintAt(start, 0))
  {
  }

  /** One more byte: the number ends here or goes on, or there is none. */
  lemma CarryOn(here: Bytes, i: nat, x: nat, scale: nat)
    ensures Carried(x, scale, TakeUvarintAt(here, i)) ==
      if here == [] || i >= MAX_VARINT_LEN then None
      else if here[0] >= 128 then
        Carried(x + scale * (here[0] - 128), scale * 128, TakeUvarintAt(here[1..], i + 1))
      else if i == MAX_VARINT_LEN - 1 && here[0] > 1 then None
      else Some((x + scale * here[0], here[1..]))
  {
    if here != [] && i < MAX_VARINT_LEN && here[0] >= 128 {
      var later := TakeUvarintAt(here[1..], i + 1);
      NextGroup(x, scale, here[0] - 128, if later.Some? then later.value.0 else 0);
    }
  }

  lemma NextGroup(x: nat, scale: nat, group: nat, w: nat)
    ensures x + scale * (group + 128 * w) == (x + scale * group) + (scale * 128) * w
  {
    assert scale * (group + 128 * w) == scale * group + scale * (128 * w);
    assert scale * (128 * w) == (scale * 128) * w;
  }

  method ReadRequest(r: ByteReader) returns (hash: Option<Hash>)
    requires r.Valid()
    modifies r
    ensures r.Valid()
    ensures match TakeRequest(old(r.Rest())) case None => hash == None
            case Some((h, rest)) => hash == Some(h) && r.Rest() == rest
  {
    var n := ReadUvarint(r);
    if n.None? || n.value == 0 || n.value > MAX_HASH_LEN {
      return None;
    }
    hash := r.ReadBytes(n.value);
  }

  /** The declared length is checked before anything is read. */
  method ReadBlobMax(r: ByteReader, max: nat) returns (data: Option<Bytes>)
    requires r.Valid()
    modifies r
    ensures r.Valid()
    ensures match TakeBlob(old(r.Rest()), max) case None => data == None
            case Some((d, rest)) => data == Some(d) && r.Rest() == rest
  {
    var n := ReadUvarint(r);
    if n.None? || n.value == 0 || n.value > Min(max, MAX_BLOB_SIZE) {
      return None;
    }
    data := r.ReadBytes(n.value);
  }

  function OfferIn(stream: Bytes): Option<Offer> {
    match TakeOffer(stream) case None => None case Some((o, rest)) => Some(o)
  }

  function AfterOffer(stream: Bytes): Bytes {
    match TakeOffer(stream) case None => [] case Some((o, rest)) => rest
  }

  method ReadPushOffer(r: ByteReader) returns (o: Option<Offer>)
    requires r.Valid()
    modifies r
    ensures r.Valid() && o == OfferIn(old(r.Rest()))
    ensures o.Some? ==> o.value.nblobs > 0 && r.Rest() == AfterOffer(old(r.Rest()))
  {
    var root := ReadRequest(r);
    if root.None? || !IsContentHash(root.value) { return None; }
    var size := ReadUvarint(r);
    if size.None? || size.value == 0 || size.value > MAX_CONTENT_SIZE { return None; }
    var nblobs := ReadUvarint(r);
    if nblobs.None? || nblobs.value == 0 || nblobs.value > 1 + MAX_MANIFEST_CHUNKS { return None; }
    o := Some(Offer(root.value, size.value, nblobs.value));
  }

  /** Reads until `n` bytes are in hand or the stream ends. */
  method ReadFill(r: ByteReader, n: nat) returns (got: Bytes)
    requires r.Valid()
    modifies r
    ensures r.Valid() && old(r.Rest()) == got + r.Rest() && |got| <= n && (|got| < n ==> r.Rest() == [])
  {
    var end := Min(|r.buf|, r.pos + n);
    got := r.buf[r.pos..end];
    assert r.buf[r.pos..] == got + r.buf[end..];
    r.pos := end;
  }

  /** Byte `i` of what the peer replied, if it came. */
  function ReplyByte(replies: Bytes, i: nat): Option<byte> {
    if i < |replies| then Some(replies[i]) else None
  }

  // ---------------------------------------------------------------- the receive loop

  /** What the manifest variable holds once the root has been accepted. */
  ghost predicate ManifestSeen(o: Offer, done: seq<Bytes>, manifest: Option<ChunkManifest>) {
    done != [] ==>
      manifest == DecodeManifest(done[0]) && o.nblobs == if manifest.Some? then 1 + |manifest.value.chunks| else 1
  }

  /** The root must be the offered one and agree with the blob count; a chunk must be the manifest's next. */
  method CheckBlob(o: Offer, manifest: Option<ChunkManifest>, i: nat, hash: Hash, data: Bytes, ghost done: seq<Bytes>)
      returns (ok: bool, manifest': Option<ChunkManifest>)
    requires |done| == i < o.nblobs && ManifestSeen(o, done, manifest)
    ensures ok == Check(o)(done, hash, data)
    ensures ok ==> ManifestSeen(o, done + [data], manifest')
  {
    manifest' := manifest;
    if ContentHash(data) != hash {
      return false, manifest';
    }
    if i == 0 {
      if hash != o.root {
        return false, manifest';
      }
      manifest' := DecodeManifest(data);
      ok := o.nblobs == if manifest'.Some? then 1 + |manifest'.value.chunks| else 1;
    } else {
      assert manifest.Some?;
      ok := hash == manifest.value.chunks[i - 1] && |data| == manifest.value.ChunkLen(i - 1);
    }
  }

  class ContentService {
    const ix: ContentIndex
    const hostBudget: int
    const maxPushSize: int
    const hostTTL: int

    constructor (ix: ContentIndex, hostBudget: int, maxPushSize: int, hostTTL: int)
      ensures this.ix == ix && this.hostBudget == hostBudget && this.maxPushSize == maxPushSize
        && this.hostTTL == hostTTL
    {
      this.ix, this.hostBudget, this.maxPushSize, this.hostTTL := ix, hostBudget, maxPushSize, hostTTL;
    }

    /** Every pass on behalf of a push has this node's limits. */
    function Ask(size: nat, now: int): (q: Request)
      ensures q.size == size && q.now == now
      ensures q.budget == hostBudget && q.maxSize == maxPushSize && q.ttl == hostTTL
    {
      Request(size, hostBudget, maxPushSize, hostTTL, now)
    }

    /** Claim, then write: the blob is never on disk unspoken for. */
    method ClaimAndPut(claims: BlobClaims, data: Bytes) returns (ok: bool)
      requires claims.ix == ix
      modifies claims, ix, ix.store
      ensures ok <==> |data| <= MAX_BLOB_SIZE
      ensures ix.State() == PutStep(old(ix.State()), data)
      ensures claims.hashes == old(claims.hashes) + [ContentHash(data)]
    {
      claims.Claim(ContentHash(data));
      var stored := ix.store.Put(data);
      ok := stored.Some?;
    }

    // -------------------------------------------------------------- publishing

    /** Store a stream's content as one blob, or as chunks and a manifest; `wrote` is what reached the store. */
    method PutStream(r: ByteReader, now: int) returns (result: Option<(Hash, nat)>, ghost wrote: seq<Bytes>)
      requires r.Valid()
      modifies r, ix, ix.store
      ensures result == if Publishable(old(r.Rest())) then Some((RootOf(old(r.Rest())), |old(r.Rest())|)) else None
      ensures result.Some? ==> ix.State() == Published(old(ix.State()), old(r.Rest()), now)
      ensures result.None? ==> ix.State() == Rollback(old(ix.State()), wrote) && wrote <= BlobsOf(old(r.Rest()))
    {
      ghost var c, s := r.Rest(), ix.State();
      var claims := new BlobClaims(ix);
      var head := ReadFill(r, CHUNK_SIZE + 1);
      if |head| <= CHUNK_SIZE {
        assert c == head;
        PutWhole(head, claims, now);
        return Some((ContentHash(head), |head|)), [head];
      }
      var m;
      m, wrote := PutChunks(head, r, claims);
      if m.None? {
        claims.Discard();
        return None, wrote;
      }
      wrote := BlobsOf(c);
      var root := PutManifest(m.value, c, claims, now, s);
      result := if root.Some? then Some((root.value, m.value.totalSize)) else None;
    }

    method PutWhole(c: Bytes, claims: BlobClaims, now: int)
      requires claims.ix == ix && claims.hashes == [] && |c| <= CHUNK_SIZE
      modifies claims, ix, ix.store
      ensures ix.State() == Published(old(ix.State()), c, now)
      ensures RootOf(c) == ContentHash(c) && Publishable(c)
    {
      ghost var s := ix.State();
      var stored := ClaimAndPut(claims, c);
      ghost var hs := claims.hashes;
      ix.MarkOwned(ContentHash(c), |c|, [], claims, now);
      PublishedWhole(s, c, hs, now, ix.State());
    }

    /** The chunks of everything in `head` and on the stream; none when the content is too large. */
    method PutChunks(head: Bytes, r: ByteReader, claims: BlobClaims)
        returns (m: Option<ChunkManifest>, ghost wrote: seq<Bytes>)
      requires r.Valid() && claims.ix == ix && claims.hashes == [] && |head| == CHUNK_SIZE + 1
      modifies r, claims, ix, ix.store
      ensures var c := head + old(r.Rest());
        && m == (if |c| <= MAX_CONTENT_SIZE then Some(ManifestOf(c)) else None)
        && wrote <= Pieces(c) && (m.Some? ==> wrote == Pieces(c))
      ensures ix.State() == AfterPuts(old(ix.State()), wrote) && claims.hashes == HashesOf(wrote)
    {
      hide AfterPuts, PutStep;
      ghost var c, s := head + r.Rest(), ix.State();
      var stored := ClaimAndPut(claims, head[..CHUNK_SIZE]);
      var chunks, total, carry := [ContentHash(head[..CHUNK_SIZE])], CHUNK_SIZE, head[CHUNK_SIZE..];
      wrote := [head[..CHUNK_SIZE]];
      FirstChunk(s, head, r.Rest());
      while true
        invariant r.Valid() && total + |carry + r.Rest()| == |c| && total <= MAX_CONTENT_SIZE && |carry| <= 1
        invariant Pieces(c) == wrote + Pieces(carry + r.Rest())
        invariant ix.State() == AfterPuts(s, wrote) && claims.hashes == chunks == HashesOf(wrote)
        decreases |carry + r.Rest()|
      {
        ghost var rest := carry + r.Rest();
        var got := ReadFill(r, CHUNK_SIZE - |carry|);
        var fill := carry + got;
        if fill == [] {
          break;
        }
        assert rest == fill + r.Rest();
        NextChunk(s, wrote, fill, r.Rest());
        assert Pieces(c) == wrote + Pieces(rest);
        if total + |fill| > MAX_CONTENT_SIZE {
          return None, wrote;
        }
        stored := ClaimAndPut(claims, fill);
        chunks, total, carry := chunks + [ContentHash(fill)], total + |fill|, [];
        wrote := wrote + [fill];
        assert carry + r.Rest() == r.Rest();
        if |fill| < CHUNK_SIZE {
          break;
        }
      }
      assert carry + r.Rest() == [] && Pieces([]) == [];
      assert wrote == Pieces(c);
      m := Some(ChunkManifest(total, CHUNK_SIZE, chunks));
    }

    /** The manifest goes last, and the set is recorded under its hash. */
    method PutManifest(m: ChunkManifest, ghost c: Bytes, claims: BlobClaims, now: int, ghost s: Index)
        returns (root: Option<Hash>)
      requires claims.ix == ix && claims.hashes == HashesOf(Pieces(c)) && ix.State() == AfterPuts(s, Pieces(c))
      requires m == ManifestOf(c) && |c| > CHUNK_SIZE
      modifies claims, ix, ix.store
      ensures root == if |EncodeManifest(m)| <= MAX_BLOB_SIZE then Some(RootOf(c)) else None
      ensures root.Some? ==> ix.State() == Published(s, c, now)
      ensures root.None? ==> ix.State() == Rollback(s, BlobsOf(c))
    {
      hide MarkOwned, Published, ReleaseClaims, AfterPuts;
      var data := EncodeManifest(m);
      ManifestPut(s, c);
      var ok := ClaimAndPut(claims, data);
      if !ok {
        claims.Discard();
        return None;
      }
      ghost var before, hs := ix.State(), claims.hashes;
      ix.MarkOwned(ContentHash(data), |data| + m.totalSize, m.chunks, claims, now);
      PublishedChunked(s, c, data, before, hs, now, ix.State());
      root := Some(ContentHash(data));
    }

    // -------------------------------------------------------------- sending

    method LoadContentSet(root: Hash) returns (set_: Option<ContentSet>)
      ensures set_ == LoadedSet(ix.store.disk, root)
    {
      var data := ix.store.Get(root);
      if data.None? {
        return None;
      }
      var m := DecodeManifest(data.value);
      if m.Some? {
        ManifestPositive(m.value);
        return Some(ContentSet(root, |data.value| + m.value.totalSize, m.value.chunks));
      }
      set_ := Some(ContentSet(root, |data.value|, []));
    }

    /** The sender's side of a push: the offer, and every blob once it has been accepted. */
    method PushOnStream(s: ContentSet, out: Buffer, replies: ByteReader) returns (status: Option<byte>)
      requires replies.Valid()
      modifies out, replies
      ensures var answer := ReplyByte(old(replies.Rest()), 0);
        if answer != Some(ACCEPT) then status == answer && out.data == old(out.data) + OfferBytes(s.ToOffer())
        else
          && out.data == old(out.data) + OfferBytes(s.ToOffer()) + SentFrames(ix.store.disk, s.Names())
          && var sent := forall h :: h in s.Names() ==> h in ix.store.disk;
             status == if sent && ReplyByte(old(replies.Rest()), 1) == Some(1) then Some(ACCEPT) else None
    {
      out.Write(OfferBytes(s.ToOffer()));
      status := replies.ReadByte();
      if status != Some(ACCEPT) {
        return;
      }
      var sent := SendBlobs(s.Names(), out);
      if !sent {
        return None;
      }
      var final := replies.ReadByte();
      status := if final == Some(1) then Some(ACCEPT) else None;
    }

    method SendBlobs(names: seq<Hash>, out: Buffer) returns (ok: bool)
      modifies out
      ensures out.data == old(out.data) + SentFrames(ix.store.disk, names)
      ensures ok <==> forall h :: h in names ==> h in ix.store.disk
    {
      ghost var disk := ix.store.disk;
      for k := 0 to |names|
        invariant ix.store.disk == disk
        invariant forall i :: 0 <= i < k ==> names[i] in disk
        invariant out.data == old(out.data) + SentFrames(disk, names[..k])
      {
        var data := ix.store.Get(names[k]);
        if data.None? {
          SentStops(disk, names, k);
          return false;
        }
        SentStep(disk, names, k);
        out.Write(RequestBytes(names[k]) + BlobBytes(data.value));
      }
      assert names[..|names|] == names;
      ok := true;
    }

    // -------------------------------------------------------------- fetching

    /** The local path of a fetch, copied out with buffers of any sizes. */
    method Fetch(root: Hash, now: int) returns (content: Option<Bytes>)
      modifies ix
      ensures content == ReadBack(ix.store.disk, root)
      ensures ix.State() ==
        if root in ix.store.disk then TouchReferring(old(ix.State()), root, now) else old(ix.State())
    {
      var top := ix.store.Get(root);
      if top.None? {
        return None;
      }
      ix.TouchBlob(root, now);
      var m := DecodeManifest(top.value);
      content := top;
      if m.Some? {
        content := CopyChunks(m.value);
      }
    }

    method CopyChunks(m: ChunkManifest) returns (content: Option<Bytes>)
      ensures content == if Intact(ix.store.disk, m) then Some(ChunkBytes(ix.store.disk, m.chunks)) else None
    {
      ghost var disk := ix.store.disk;
      var reader := new ChunkReader(m, ix.store);
      var copied: Bytes := [];
      while true
        invariant reader.Valid() && ix.store.disk == disk && copied + reader.Rest() == ChunkBytes(disk, m.chunks)
        invariant forall i :: 0 <= i < reader.next ==> ChunkIntact(disk, m, i)
        decreases |reader.Rest()|
      {
        ghost var left := reader.Rest();
        var n: nat :| n > 0;
        var got := reader.Read(n);
        match got
        case Eof =>
          assert copied + left == copied && Intact(disk, m);
          return Some(copied);
        case Failed => return None;
        case Data(bytes) => copied := copied + bytes;
      }
    }

    // -------------------------------------------------------------- receiving

    method ReceiveBlobs(r: ByteReader, o: Offer, claims: BlobClaims)
        returns (ok: bool, manifest: Option<ChunkManifest>, ghost blobs: seq<Bytes>)
      requires r.Valid() && claims.ix == ix && claims.hashes == []
      modifies r, claims, ix, ix.store
      ensures Received(blobs, ok) == Receive(old(r.Rest()), o)
      ensures ManifestSeen(o, blobs, manifest)
      ensures ix.State() == AfterPuts(old(ix.State()), blobs)
      ensures claims.hashes == HashesOf(blobs)
    {
      ghost var start, s := r.Rest(), ix.State();
      var received: nat := 0;
      manifest := None;
      ok := false;
      blobs := [];
      assert HashesOf(blobs) == [];
      for i := 0 to o.nblobs
        invariant r.Valid() && |blobs| == i && received == TotalLength(blobs) <= o.size
        invariant Receive(start, o) == ReceiveWith(TakeFrame, Check(o), r.Rest(), o.nblobs, o.size, blobs)
        invariant ManifestSeen(o, blobs, manifest)
        invariant ix.State() == AfterPuts(s, blobs) && claims.hashes == HashesOf(blobs)
      {
        var hash, data := ReadFrame(r, o.size - received);
        if data.None? {
          return false, manifest, blobs;
        }
        var next;
        ok, next := CheckBlob(o, manifest, i, hash, data.value, blobs);
        if !ok {
          return false, manifest, blobs;
        }
        manifest := next;
        var stored := ClaimAndPut(claims, data.value);
        received := received + |data.value|;
        AfterPutsStep(s, blobs, data.value);
        TotalStep(blobs, data.value);
        blobs := blobs + [data.value];
      }
      ok := received == o.size;
    }

    /** The answer to an offer: already held (and refreshed), promised its bytes, or declined. */
    method AnswerOffer(o: Offer, now: int) returns (status: byte)
      modifies ix, ix.store
      ensures Answered(old(ix.State()), o, Ask(o.size, now), status, ix.State())
    {
      var held := ix.Has(o.root);
      if held {
        ix.TouchLocked(o.root, now);
        return HAVE;
      }
      var reserved := ix.Reserve(Ask(o.size, now));
      status := if reserved then ACCEPT else DECLINE;
    }

    /** The receiver's side of a push once its offer has been read, with the clock read at the offer and again at
        the commit; `mid` is the index when the offer has been answered. */
    method HandleOffer(o: Offer, stream: ByteReader, from: string, offeredAt: int, committedAt: int)
        returns (status: byte, final: byte, ghost mid: Index, ghost received: Received, ghost victims: seq<Hash>)
      requires stream.Valid() && o.nblobs > 0
      modifies ix, ix.store
      ensures Answered(old(ix.State()), o, Ask(o.size, offeredAt), status, mid)
      ensures status != ACCEPT ==> ix.State() == mid
      ensures status == ACCEPT ==> received == ReceiveLimited(old(stream.Rest()), o)
      ensures status == ACCEPT ==>
        TransferEnd(mid, o, received, Ask(o.size, committedAt), from, final, victims, ix.State())
    {
      received, victims := Received([], false), [];
      final := 0;
      status := AnswerOffer(o, offeredAt);
      mid := ix.State();
      if status == ACCEPT {
        var r := LimitTransfer(stream, o);
        final, received, victims := AcceptPush(r, o, from, committedAt);
      }
    }

    /** An inbound push; nothing is written back when the offer itself does not read. */
    method HandlePush(stream: ByteReader, from: string, offeredAt: int, committedAt: int)
        returns (offer: Option<Offer>, reply: Bytes, ghost mid: Index, ghost received: Received,
                ghost victims: seq<Hash>)
      requires stream.Valid()
      modifies stream, ix, ix.store
      ensures offer == OfferIn(old(stream.Rest()))
      ensures offer.None? ==> reply == [] && ix.State() == mid == old(ix.State())
      ensures offer.Some? ==>
        |reply| > 0 && Answered(old(ix.State()), offer.value, Ask(offer.value.size, offeredAt), reply[0], mid)
      ensures offer.Some? && reply[0] != ACCEPT ==> |reply| == 1 && ix.State() == mid
      ensures offer.Some? && reply[0] == ACCEPT ==>
        && |reply| == 2 && received == ReceiveLimited(AfterOffer(old(stream.Rest())), offer.value)
        && TransferEnd(mid, offer.value, received, Ask(offer.value.size, committedAt), from, reply[1],
                       victims, ix.State())
    {
      mid, received, victims, reply := ix.State(), Received([], false), [], [];
      offer := ReadPushOffer(stream);
      if offer.Some? {
        var status, final;
        status, final, mid, received, victims := HandleOffer(offer.value, stream, from, offeredAt, committedAt);
        reply := if status == ACCEPT then [ACCEPT, final] else [status];
      }
    }

    /** Record the received set, or roll its blobs back if it no longer fits. */
    method CommitOrDiscard(o: Offer, chunks: seq<Hash>, from: string, now: int, claims: BlobClaims)
        returns (ok: bool, ghost victims: seq<Hash>)
      requires claims.ix == ix
      modifies claims, ix, ix.store
      ensures var s := old(ix.State()); var hs := old(claims.hashes); var q := Ask(o.size, now);
        && FitRun(s.sets, Unreserve(s, o.size).reserved, q, victims, ok)
        && (ok <==> Fits(s.sets, Unreserve(s, o.size).reserved, q))
        && ix.State() == CommitEnd(s, o, chunks, from, victims, ok, hs, now)
    {
      ok, victims := ix.CommitHosted(o.root, chunks, from, Ask(o.size, now), claims);
      if !ok {
        claims.Discard();
      }
    }

    /** After the offer has been accepted: receive, verify and commit, or undo everything. */
    method AcceptPush(r: ByteReader, o: Offer, from: string, now: int)
        returns (final: byte, ghost received: Received, ghost victims: seq<Hash>)
      requires r.Valid() && o.nblobs > 0
      modifies r, ix, ix.store
      ensures received == Receive(old(r.Rest()), o)
      ensures TransferEnd(old(ix.State()), o, received, Ask(o.size, now), from, final, victims, ix.State())
    {
      victims := [];
      ghost var s1, bytes := ix.State(), r.Rest();
      var claims := new BlobClaims(ix);
      var ok, manifest;
      ghost var blobs;
      ok, manifest, blobs := ReceiveBlobs(r, o, claims);
      received := Received(blobs, ok);
      if !ok {
        claims.Discard();
        ix.Release(o.size);
        return 0, received, victims;
      }
      ReceivedSome(bytes, o);
      final, victims := Record(o, manifest, blobs, from, now, claims);
    }

    method Record(o: Offer, manifest: Option<ChunkManifest>, ghost blobs: seq<Bytes>, from: string, now: int,
                  claims: BlobClaims)
        returns (final: byte, ghost victims: seq<Hash>)
      requires claims.ix == ix && blobs != [] && ManifestSeen(o, blobs, manifest) && claims.hashes == HashesOf(blobs)
      modifies claims, ix, ix.store
      ensures CommitsAs(old(ix.State()), o, blobs, Ask(o.size, now), from, final, victims, ix.State())
    {
      var chunks := if manifest.Some? then manifest.value.chunks else [];
      var ok;
      ok, victims := CommitOrDiscard(o, chunks, from, now, claims);
      final := if ok then 1 else 0;
    }
  }

  lemma ReceivedSome(bytes: Bytes, o: Offer)
    requires o.nblobs > 0 && Receive(bytes, o).ok
    ensures Receive(bytes, o).blobs != []
  {
    ReceiveSound(bytes, o);
  }

  method LimitReader(stream: ByteReader, limit: nat) returns (r: ByteReader)
    requires stream.Valid()
    ensures fresh(r) && r.Valid() && r.Rest() == r.buf == Limited(stream.Rest(), limit)
  {
    var end := Min(|stream.buf|, stream.pos + limit);
    r := new ByteReader(stream.buf[stream.pos..end], 0);
    assert stream.Rest()[..end - stream.pos] == stream.buf[stream.pos..end];
  }

  /** The stream of a transfer, cut off at the offered size and the framing allowance. */
  method LimitTransfer(stream: ByteReader, o: Offer) returns (r: ByteReader)
    requires stream.Valid()
    ensures fresh(r) && r.Valid() && Receive(r.Rest(), o) == ReceiveLimited(stream.Rest(), o)
  {
    r := LimitReader(stream, o.size + Allowance(o.nblobs));
    SameStream(r.Rest(), stream.Rest(), o);
  }

  lemma SameStream(seen: Bytes, stream: Bytes, o: Offer)
    requires seen == Limited(stream, o.size + Allowance(o.nblobs))
    ensures Receive(seen, o) == ReceiveLimited(stream, o)
  {
  }

  /** The index after the commit of a received set: recorded, or refused and rolled back. */
  function CommitEnd(s: Index, o: Offer, chunks: seq<Hash>, from: string, victims: seq<Hash>, ok: bool,
                     hs: seq<Hash>, now: int): Index {
    var t := Commit(s, o.root, o.size, chunks, from, victims, ok, hs, now);
    if ok then t else ReleaseClaims(t, hs, true)
  }

  /** How an accepted transfer ends, from the index that holds its reservation: abandoned and undone, or ended by
      a commit that succeeds exactly when the set fits. */
  ghost predicate TransferEnd(s: Index, o: Offer, received: Received, q: Request, from: string, final: byte,
                              victims: seq<Hash>, t: Index) {
    if !received.ok then final == 0 && t == Unreserve(Rollback(s, received.blobs), o.size)
    else received.blobs != [] && CommitsAs(AfterPuts(s, received.blobs), o, received.blobs, q, from, final, victims, t)
  }

  /** The commit of a set whose blobs are all claimed and on disk in `s`. */
  ghost predicate CommitsAs(s: Index, o: Offer, blobs: seq<Bytes>, q: Request, from: string, final: byte,
                            victims: seq<Hash>, t: Index)
    requires blobs != []
  {
    var fits := Fits(s.sets, Unreserve(s, o.size).reserved, q);
    && FitRun(s.sets, Unreserve(s, o.size).reserved, q, victims, fits)
    && final == (if fits then 1 else 0)
    && t == CommitEnd(s, o, RecordedChunks(blobs), from, victims, fits, HashesOf(blobs), q.now)
  }

  /** How an offer is answered, and the index that leaves. */
  ghost predicate Answered(s: Index, o: Offer, ask: Request, status: byte, t: Index) {
    if o.root in s.sets then status == HAVE && t == Touch(s, o.root, ask.now)
    else if Fits(s.sets, s.reserved, ask) then status == ACCEPT && t == s.(reserved := s.reserved + o.size)
    else status == DECLINE && t == s
  }

  /** What the receiver accepts of a stream that it reads through its limit. */
  function ReceiveLimited(stream: Bytes, o: Offer): Received {
    Receive(Limited(stream, o.size + Allowance(o.nblobs)), o)
  }

  method ReadFrame(r: ByteReader, max: nat) returns (hash: Hash, data: Option<Bytes>)
    requires r.Valid()
    modifies r
    ensures r.Valid()
    ensures match TakeFrame(old(r.Rest()), max) case None => data == None
            case Some(((h, d), rest)) =>
              hash == h && data == Some(d) && r.Rest() == rest && 0 < |d| <= max && |d| <= MAX_BLOB_SIZE
  {
    hash := [];
    var h := ReadRequest(r);
    if h.None? {
      return hash, None;
    }
    hash := h.value;
    data := ReadBlobMax(r, max);
  }
}
