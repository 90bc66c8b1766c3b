/** What a push leaves behind on the receiver, and a whole journey: publish on one node, push to another, fetch
    there (internal/node/replicate.go, internal/node/contentnet.go). */
module EndToEnd {
  import opened Bytes
  import opened Content
  import opened IndexModel
  import opened IndexInvariant
  import opened Chunking
  import opened Wire
  import opened PushProtocol
  import opened Transfers
  import opened Publishing
  import opened ContentServiceCode

  // ---------------------------------------------------------------- the receiver's books

  /** After every claim of `ds` has been dropped again, each blob is claimed as often as before. */
  lemma ClaimsReturned(s: Index, ds: seq<Bytes>, u: Index, discard: bool)
    requires u.pending == AfterPuts(s, ds).pending
    ensures forall h :: Claims(ReleaseClaims(u, HashesOf(ds), discard), h) == Claims(s, h)
  {
    hide AfterPuts;
    AfterPutsFacts(s, ds);
    forall h ensures Claims(ReleaseClaims(u, HashesOf(ds), discard), h) == Claims(s, h) {
      assert Claims(u, h) == Claims(AfterPuts(s, ds), h);
      assert h !in HashesOf(ds) ==> multiset(HashesOf(ds))[h] == 0;
    }
  }

  /** The reservation is returned exactly once and every claim is dropped, however the transfer ends. */
  lemma TransferSettles(s: Index, o: Offer, received: Received, q: Request, from: string, final: byte,
                        victims: seq<Hash>, t: Index)
    requires TransferEnd(s, o, received, q, from, final, victims, t) && s.reserved >= o.size
    ensures t.reserved == s.reserved - o.size
    ensures forall h :: Claims(t, h) == Claims(s, h)
  {
    hide AfterPuts, Fits, FitRun;
    var ds := received.blobs;
    var u := AfterPuts(s, ds);
    AfterPutsFacts(s, ds);
    if received.ok {
      EvictAllSets(Unreserve(u, o.size), victims);
      SettledCommit(s, o, ds, from, final, victims, q, t);
    } else {
      ClaimsReturned(s, ds, u, true);
    }
  }

  lemma SettledCommit(s: Index, o: Offer, ds: seq<Bytes>, from: string, final: byte, victims: seq<Hash>,
                      q: Request, t: Index)
    requires ds != [] && CommitsAs(AfterPuts(s, ds), o, ds, q, from, final, victims, t)
    requires AfterPuts(s, ds).reserved == s.reserved >= o.size
    ensures t.reserved == s.reserved - o.size
    ensures forall h :: Claims(t, h) == Claims(s, h)
  {
    hide AfterPuts, EvictAll, Fits, FitRun, ReleaseClaims;
    var u := EvictAll(Unreserve(AfterPuts(s, ds), o.size), victims);
    EvictAllSets(Unreserve(AfterPuts(s, ds), o.size), victims);
    var v := AddHosted(u, o.root, o.size, RecordedChunks(ds), from, q.now);
    ClaimsReturned(s, ds, v, false);
    ClaimsReturned(s, ds, u, true);
    ReleaseKeeps(v, HashesOf(ds), false);
    ReleaseKeeps(u, HashesOf(ds), true);
  }

  lemma ReleaseKeeps(u: Index, hs: seq<Hash>, discard: bool)
    ensures var t := ReleaseClaims(u, hs, discard); t.reserved == u.reserved && t.sets == u.sets && t.blobs == u.blobs
  {
  }

  /** A final reply of 0 records nothing; a final reply of 1 means that the whole set the root commits to has
      arrived, in order and of the offered size, and is recorded. */
  lemma FinalReply(s: Index, o: Offer, stream: Bytes, q: Request, from: string, final: byte,
                   victims: seq<Hash>, t: Index)
    requires TransferEnd(s, o, ReceiveLimited(stream, o), q, from, final, victims, t) && o.nblobs > 0
    ensures final == 0 || final == 1
    ensures final == 0 ==> forall r :: r in t.sets ==> r in s.sets && t.sets[r] == s.sets[r]
    ensures final == 1 ==> WholeSet(o, ReceiveLimited(stream, o).blobs) && o.root in t.sets
    ensures final == 1 && o.root !in s.sets ==>
      t.sets[o.root] == Meta(false, o.size, RecordedChunks(ReceiveLimited(stream, o).blobs), q.now, q.now, from)
  {
    hide AfterPuts, Fits, FitRun, Receive;
    var received := ReceiveLimited(stream, o);
    ReceiveSound(Limited(stream, o.size + Allowance(o.nblobs)), o);
    AfterPutsFacts(s, received.blobs);
    if received.ok {
      FinalSets(AfterPuts(s, received.blobs), o, received.blobs, q, from, final, victims, t);
    }
  }

  lemma FinalSets(u: Index, o: Offer, ds: seq<Bytes>, q: Request, from: string, final: byte,
                  victims: seq<Hash>, t: Index)
    requires ds != [] && CommitsAs(u, o, ds, q, from, final, victims, t)
    ensures final == 0 || final == 1
    ensures final == 0 ==> forall r :: r in t.sets ==> r in u.sets && t.sets[r] == u.sets[r]
    ensures final == 1 ==> o.root in t.sets
    ensures final == 1 && o.root !in u.sets ==>
      t.sets[o.root] == Meta(false, o.size, RecordedChunks(ds), q.now, q.now, from)
  {
    hide EvictAll, Fits, FitRun, ReleaseClaims, RecordedChunks;
    var w := EvictAll(Unreserve(u, o.size), victims);
    EvictAllSets(Unreserve(u, o.size), victims);
    ReleaseKeeps(AddHosted(w, o.root, o.size, RecordedChunks(ds), from, q.now), HashesOf(ds), false);
    ReleaseKeeps(w, HashesOf(ds), true);
  }

  /** A push that is accepted and then abandoned leaves the index exactly as it was before the offer, and the
      store with nothing lost and nothing that nobody wants. */
  lemma AbandonedPush(s: Index, o: Offer, ask: Request, mid: Index, received: Received, q: Request, from: string,
                      final: byte, victims: seq<Hash>, t: Index)
    requires Answered(s, o, ask, ACCEPT, mid) && TransferEnd(mid, o, received, q, from, final, victims, t)
      && !received.ok
    requires Tidy(s) && NoOrphans(s)
    ensures final == 0 && t.(disk := s.disk) == s
    ensures forall h :: h in s.disk ==> h in t.disk && t.disk[h] == s.disk[h]
    ensures forall h :: h in t.disk && h !in s.disk ==> Wanted(s, h)
  {
    hide Rollback, Fits;
    RollbackRestores(mid, received.blobs);
    forall h | h in t.disk && h !in s.disk ensures Wanted(s, h) {
      assert Wanted(mid, h);
    }
  }

  /** Every blob on disk hashes to its name. */
  ghost predicate TrueNames(disk: map<Hash, Bytes>) {
    forall h :: h in disk ==> ContentHash(disk[h]) == h
  }

  lemma {:induction false} PutsKeepNames(s: Index, ds: seq<Bytes>)
    requires TrueNames(s.disk)
    ensures TrueNames(AfterPuts(s, ds).disk)
    decreases |ds|
  {
    if ds != [] {
      PutsKeepNames(s, ds[..|ds| - 1]);
    }
  }

  lemma {:induction false} PassKeepsNames(s: Index, victims: seq<Hash>)
    requires TrueNames(s.disk)
    ensures TrueNames(EvictAll(s, victims).disk)
  {
    if victims != [] {
      PassKeepsNames(s, victims[..|victims| - 1]);
    }
  }

  /** Whatever a sender streams, every blob on the receiver's disk still hashes to its name. */
  lemma TransferKeepsNames(s: Index, o: Offer, received: Received, q: Request, from: string, final: byte,
                           victims: seq<Hash>, t: Index)
    requires TransferEnd(s, o, received, q, from, final, victims, t) && TrueNames(s.disk)
    ensures TrueNames(t.disk)
  {
    hide AfterPuts, EvictAll, Fits, FitRun, RecordedChunks;
    var u := AfterPuts(s, received.blobs);
    PutsKeepNames(s, received.blobs);
    PassKeepsNames(Unreserve(u, o.size), victims);
  }

  /** On such a disk, blobs within the size limit can be stored unless hashes collide. */
  lemma StorableUnlessColliding(disk: map<Hash, Bytes>, ds: seq<Bytes>)
    requires TrueNames(disk) && (forall d :: d in ds ==> |d| <= MAX_BLOB_SIZE)
    requires forall c: Bytes, d: Bytes :: ContentHash(c) == ContentHash(d) ==> c == d
    ensures Storable(disk, ds)
  {
  }

  // ---------------------------------------------------------------- publish, push, fetch

  /** The blobs of a published content in the order they are pushed: the root, then the chunks. */
  function SetBlobs(c: Bytes): seq<Bytes> {
    if |c| <= CHUNK_SIZE then [c] else [EncodeManifest(ManifestOf(c))] + Pieces(c)
  }

  function PublishedSet(c: Bytes): ContentSet {
    ContentSet(RootOf(c), SetSize(c), ChunksOf(c))
  }

  /** What the journey takes for granted: well-formed hashes, a manifest body that survives its JSON form, and a
      small content that is not itself a manifest. */
  ghost predicate Ordinary(c: Bytes) {
    && HashesWellFormed()
    && UnmarshalBody(MarshalBody(ManifestOf(c))) == Some(ManifestOf(c))
    && (|c| <= CHUNK_SIZE ==> DecodeManifest(c).None?)
  }

  lemma SameBlobs(c: Bytes, d: Bytes)
    ensures d in SetBlobs(c) <==> d in BlobsOf(c)
  {
  }

  lemma SetNames(c: Bytes)
    ensures PublishedSet(c).Names() == HashesOf(SetBlobs(c)) && |SetBlobs(c)| == 1 + |ChunksOf(c)|
  {
    if |c| <= CHUNK_SIZE {
      assert HashesOf([c]) == [ContentHash(c)];
    } else {
      var data := EncodeManifest(ManifestOf(c));
      assert HashesOf([data] + Pieces(c)) == [ContentHash(data)] + HashesOf(Pieces(c));
    }
  }

  lemma SetTotal(c: Bytes)
    ensures TotalLength(SetBlobs(c)) == SetSize(c)
  {
    if |c| <= CHUNK_SIZE {
      TotalStep([], c);
      assert [] + [c] == [c];
    } else {
      var data := EncodeManifest(ManifestOf(c));
      TotalStep([], data);
      assert [] + [data] == [data];
      TotalsAgree([data], Pieces(c));
      TotalOfPieces(c);
    }
  }

  /** What a publish writes is a whole set, as a receiver understands it. */
  lemma PublishedIsWhole(c: Bytes)
    requires Publishable(c) && c != [] && Ordinary(c)
    ensures WholeSet(PublishedSet(c).ToOffer(), SetBlobs(c))
  {
    SetTotal(c);
    SetNames(c);
    if |c| > CHUNK_SIZE {
      ManifestOfIsValid(c);
      ManifestRoundTrip(ManifestOf(c));
      ChunkedIsWhole(PublishedSet(c).ToOffer(), ManifestOf(c), Pieces(c));
    }
  }

  lemma ChunkedIsWhole(o: Offer, m: ChunkManifest, ps: seq<Bytes>)
    requires DecodeManifest(EncodeManifest(m)) == Some(m) && m.chunks == HashesOf(ps)
    requires 0 < |EncodeManifest(m)| <= MAX_BLOB_SIZE
    requires forall i :: 0 <= i < |ps| ==> m.ChunkLen(i) == |ps[i]| && 0 < |ps[i]| <= MAX_BLOB_SIZE
    requires o.root == ContentHash(EncodeManifest(m)) && o.nblobs == 1 + |ps|
      && o.size == TotalLength([EncodeManifest(m)] + ps)
    ensures WholeSet(o, [EncodeManifest(m)] + ps)
  {
    var blobs := [EncodeManifest(m)] + ps;
    assert forall i :: 1 <= i < |blobs| ==> blobs[i] == ps[i - 1];
  }

  /** The blobs of `c` are on disk under their own hashes. */
  ghost predicate Holds(disk: map<Hash, Bytes>, c: Bytes) {
    forall d :: d in BlobsOf(c) ==> ContentHash(d) in disk && disk[ContentHash(d)] == d
  }

  lemma RootHeld(disk: map<Hash, Bytes>, c: Bytes)
    requires Holds(disk, c)
    ensures RootOf(c) in disk && disk[RootOf(c)] == if |c| <= CHUNK_SIZE then c else EncodeManifest(ManifestOf(c))
  {
    var root := BlobsOf(c)[|BlobsOf(c)| - 1];
    assert root in BlobsOf(c);
  }

  /** The store that published `c` loads exactly the set it recorded. */
  lemma PublisherLoads(disk: map<Hash, Bytes>, c: Bytes)
    requires Publishable(c) && Ordinary(c) && Holds(disk, c)
    ensures LoadedSet(disk, RootOf(c)) == Some(PublishedSet(c))
  {
    hide RootOf, BlobsOf, Holds, DecodeManifest, EncodeManifest, ValidManifest, Pieces;
    RootHeld(disk, c);
    if |c| > CHUNK_SIZE {
      ManifestOfIsValid(c);
      ManifestRoundTrip(ManifestOf(c));
    }
  }

  /** And sends exactly its blobs. */
  lemma PublisherSends(disk: map<Hash, Bytes>, c: Bytes)
    requires Holds(disk, c)
    ensures SentFrames(disk, PublishedSet(c).Names()) == Frames(SetBlobs(c))
  {
    hide SentFrames, Frames, SetBlobs, BlobsOf, PublishedSet;
    forall d | d in SetBlobs(c) ensures ContentHash(d) in disk && disk[ContentHash(d)] == d {
      SameBlobs(c, d);
    }
    SetNames(c);
    SentIsFrames(disk, SetBlobs(c));
  }

  /** Everything the publisher puts on the wire. */
  function PushBytes(disk: map<Hash, Bytes>, s: ContentSet): Bytes {
    OfferBytes(s.ToOffer()) + SentFrames(disk, s.Names())
  }

  /** The offer is read, or ignored when the set is empty or exceeds the size limit, and all blobs are accepted. */
  lemma WholeSetReceived(c: Bytes, stream: Bytes)
    requires Publishable(c) && Ordinary(c) && c != [] && Framable(SetBlobs(c))
    requires stream == OfferBytes(PublishedSet(c).ToOffer()) + Frames(SetBlobs(c))
    ensures var o := PublishedSet(c).ToOffer();
      && OfferIn(stream) == (if SetSize(c) <= MAX_CONTENT_SIZE then Some(o) else None)
      && (SetSize(c) <= MAX_CONTENT_SIZE ==>
            ReceiveLimited(AfterOffer(stream), o) == Received(SetBlobs(c), true))
  {
    hide Receive, Frames, SetBlobs, OfferBytes, TakeOffer;
    var o := PublishedSet(c).ToOffer();
    OfferFits(c);
    OfferRoundTrip(o, Frames(SetBlobs(c)));
    PublishedIsWhole(c);
    HonestPushAccepted(o, SetBlobs(c), []);
    assert Frames(SetBlobs(c)) + [] == Frames(SetBlobs(c));
  }

  /** A receiver of what the publisher sends does so. */
  lemma PublishedSetReceived(disk: map<Hash, Bytes>, c: Bytes)
    requires Publishable(c) && Ordinary(c) && Holds(disk, c) && c != []
    requires Framable(SetBlobs(c))
    ensures var o, stream := PublishedSet(c).ToOffer(), PushBytes(disk, PublishedSet(c));
      && OfferIn(stream) == (if SetSize(c) <= MAX_CONTENT_SIZE then Some(o) else None)
      && (SetSize(c) <= MAX_CONTENT_SIZE ==>
            ReceiveLimited(AfterOffer(stream), o) == Received(SetBlobs(c), true))
  {
    hide ReceiveLimited, OfferIn, Frames, SetBlobs, SentFrames, BlobsOf, OfferBytes;
    PublisherSends(disk, c);
    WholeSetReceived(c, PushBytes(disk, PublishedSet(c)));
  }

  lemma OfferFits(c: Bytes)
    requires Publishable(c) && c != [] && HashesWellFormed() && Framable(SetBlobs(c))
    ensures var o := PublishedSet(c).ToOffer();
      && 0 < |o.root| <= MAX_HASH_LEN && o.size < 0x1_0000_0000_0000_0000 && o.nblobs < 0x1_0000_0000_0000_0000
      && (ValidOffer(o) <==> SetSize(c) <= MAX_CONTENT_SIZE)
  {
    assert SetBlobs(c)[0] in SetBlobs(c);
    if |c| > CHUNK_SIZE {
      ManifestOfIsValid(c);
    }
  }

  /** Every blob of a set that a receiver commits is on its disk. */
  lemma CommitHolds(mid: Index, c: Bytes, o: Offer, q: Request, from: string, victims: seq<Hash>, t: Index)
    requires TransferEnd(mid, o, Received(SetBlobs(c), true), q, from, 1, victims, t)
    requires Storable(mid.disk, SetBlobs(c))
    ensures Holds(t.disk, c)
  {
    hide AfterPuts, Fits, FitRun, SetBlobs, RecordedChunks, Commit;
    forall d | d in BlobsOf(c) ensures ContentHash(d) in t.disk && t.disk[ContentHash(d)] == d {
      SameBlobs(c, d);
      CommittedOnDisk(mid, o.root, o.size, RecordedChunks(SetBlobs(c)), from, victims, q.now, SetBlobs(c), d);
    }
  }

  /** Publish on one node, push to another, fetch there. Whatever either node held before, a receiver that accepts
      the offer of a published content and is left alone until it commits does commit it, and a fetch on the
      receiver then returns exactly the bytes that were published. */
  lemma PublishPushFetch(a: Index, c: Bytes, published: int, b: Index, ask: Request, mid: Index, committed: int,
                         from: string, final: byte, victims: seq<Hash>, t: Index)
    requires Publishable(c) && Ordinary(c) && c != [] && SetSize(c) <= MAX_CONTENT_SIZE && Framable(SetBlobs(c))
    requires Storable(a.disk, BlobsOf(c)) && Storable(b.disk, SetBlobs(c))
    requires ask.size == SetSize(c) && ask.now <= committed
    requires var o, stream := PublishedSet(c).ToOffer(), PushBytes(Published(a, c, published).disk, PublishedSet(c));
      && Answered(b, o, ask, ACCEPT, mid)
      && TransferEnd(mid, o, ReceiveLimited(AfterOffer(stream), o), ask.(now := committed), from, final, victims, t)
    ensures LoadedSet(Published(a, c, published).disk, RootOf(c)) == Some(PublishedSet(c))
    ensures OfferIn(PushBytes(Published(a, c, published).disk, PublishedSet(c))) == Some(PublishedSet(c).ToOffer())
    ensures final == 1 && RootOf(c) in t.sets && ReadBack(t.disk, RootOf(c)) == Some(c)
  {
    hide Published, Fits, AfterPuts, Receive, SetBlobs, BlobsOf, SetSize, ChunksOf, RootOf, FitRun, PushBytes, ReadBack;
    var disk, o := Published(a, c, published).disk, PublishedSet(c).ToOffer();
    PublishHolds(a, c, published);
    PublisherLoads(disk, c);
    PublishedSetReceived(disk, c);
    AcceptedFits(b, o, ask, mid, committed);
    JourneyEnds(mid, c, o, ask.(now := committed), from, final, victims, t);
  }

  /** A received set that fits is committed, and reads back as the content. */
  lemma JourneyEnds(mid: Index, c: Bytes, o: Offer, q: Request, from: string, final: byte, victims: seq<Hash>, t: Index)
    requires Publishable(c) && Ordinary(c) && o == PublishedSet(c).ToOffer() && Storable(mid.disk, SetBlobs(c))
    requires TransferEnd(mid, o, Received(SetBlobs(c), true), q, from, final, victims, t)
    requires Fits(mid.sets, Unreserve(mid, o.size).reserved, q)
    ensures final == 1 && RootOf(c) in t.sets && ReadBack(t.disk, RootOf(c)) == Some(c)
  {
    hide Fits, AfterPuts, SetBlobs, BlobsOf, SetSize, ChunksOf, RootOf, FitRun, ReadBack;
    AfterPutsFacts(mid, SetBlobs(c));
    CommitHolds(mid, c, o, q, from, victims, t);
    FinalSets(AfterPuts(mid, SetBlobs(c)), o, SetBlobs(c), q, from, final, victims, t);
    PublishedReadsBack(t.disk, c);
  }

  lemma PublishHolds(a: Index, c: Bytes, now: int)
    requires Storable(a.disk, BlobsOf(c))
    ensures Holds(Published(a, c, now).disk, c)
  {
    forall d | d in BlobsOf(c)
      ensures ContentHash(d) in Published(a, c, now).disk && Published(a, c, now).disk[ContentHash(d)] == d
    {
      OwnedOnDisk(a, RootOf(c), SetSize(c), ChunksOf(c), now, BlobsOf(c), d);
    }
  }

  /** An offer that was accepted still fits at any later time. */
  lemma AcceptedFits(b: Index, o: Offer, ask: Request, mid: Index, later: int)
    requires Answered(b, o, ask, ACCEPT, mid) && ask.now <= later
    ensures Fits(mid.sets, Unreserve(mid, o.size).reserved, ask.(now := later))
  {
    FitsLater(b.sets, b.reserved, ask, later);
  }
}
