/** The transfers of one node as actions among any others: every step that a receiver or a publisher takes is one that
    the runs allow, and what a commit or a publish stores can be read back in every later state
    (internal/node/replicate.go, internal/node/contentnet.go). */
module TransfersInRuns {
  import opened Bytes
  import opened Content
  import opened IndexModel
  import opened IndexInvariant
  import opened Chunking
  import opened Wire
  import opened PushProtocol
  import opened Publishing
  import opened Startup
  import opened ContentServiceCode
  import opened EndToEnd
  import R = ContentRuns
  import H = ContentHistory

  /** These blobs are the ones their hashes stand for. */
  ghost predicate InPlay(ds: seq<Bytes>) {
    forall d :: d in ds ==> BlobOf(ContentHash(d)) == d
  }

  lemma {:induction false} ListWeightIsTotal(ds: seq<Bytes>)
    requires InPlay(ds)
    ensures R.ListWeight(HashesOf(ds)) == TotalLength(ds)
  {
    if ds == [] {
      assert HashesOf(ds) == [];
    } else {
      var init := ds[..|ds| - 1];
      ListWeightIsTotal(init);
      assert HashesOf(ds)[..|ds| - 1] == HashesOf(init);
    }
  }

  lemma {:induction false} PrefixTotal(ds: seq<Bytes>, k: nat)
    requires k <= |ds|
    ensures TotalLength(ds[..k]) <= TotalLength(ds)
    decreases |ds|
  {
    if k < |ds| {
      PrefixTotal(ds[..|ds| - 1], k);
      assert ds[..|ds| - 1][..k] == ds[..k];
    } else {
      assert ds[..k] == ds;
    }
  }

  /** A writer that has claimed and written these blobs. */
  function Holding(ds: seq<Bytes>, promise: Option<nat>): R.Writer {
    R.Writer(HashesOf(ds), HashesOf(ds), promise)
  }

  // ---------------------------------------------------------------- the receiver

  /** Whatever arrives, a receiver never claims more than it was offered. */
  lemma ReceiverWithinOffer(b: Bytes, o: Offer, k: nat)
    requires o.nblobs > 0 && k <= |Receive(b, o).blobs| && InPlay(Receive(b, o).blobs)
    ensures R.WithinOffer(Holding(Receive(b, o).blobs[..k], Some(o.size)))
  {
    hide Receive;
    var ds := Receive(b, o).blobs;
    ReceiveSound(b, o);
    PrefixTotal(ds, k);
    ListWeightIsTotal(ds[..k]);
  }

  lemma NextBlob(ds: seq<Bytes>, k: nat)
    requires k < |ds|
    ensures HashesOf(ds[..k + 1]) == HashesOf(ds[..k]) + [ContentHash(ds[k])]
  {
  }

  /** Claiming and writing the next accepted blob are actions that the runs allow, and lead to the blob after it. */
  lemma ReceiverSteps(budget: int, s: R.System, id: int, b: Bytes, o: Offer, k: nat)
    requires o.nblobs > 0 && k < |Receive(b, o).blobs| && InPlay(Receive(b, o).blobs)
    requires id in s.writers && s.writers[id] == Holding(Receive(b, o).blobs[..k], Some(o.size))
    ensures var ds := Receive(b, o).blobs; var claim := R.Claim(id, ContentHash(ds[k]));
      && R.Enabled(budget, s, claim)
      && var t := R.Apply(budget, s, claim); var put := R.Put(id, ContentHash(ds[k]));
         && R.Enabled(budget, t, put)
         && R.Apply(budget, t, put).writers[id] == Holding(ds[..k + 1], Some(o.size))
  {
    hide Receive, AddClaim, PutBlob;
    var ds := Receive(b, o).blobs;
    ReceiverWithinOffer(b, o, k + 1);
    NextBlob(ds, k);
  }

  lemma WholeSetNames(o: Offer, ds: seq<Bytes>)
    requires WholeSet(o, ds)
    ensures HashesOf(ds) == [o.root] + RecordedChunks(ds)
    ensures R.Elems(HashesOf(ds)) == Names(o.root, RecordedChunks(ds))
  {
    var hs, cs := HashesOf(ds), RecordedChunks(ds);
    forall i | 0 <= i < |hs| ensures hs[i] == ([o.root] + cs)[i] {
      assert i > 0 ==> ContentHash(ds[i]) == cs[i - 1];
    }
  }

  /** A set accepted in full is complete when it is recorded. */
  lemma ReceiverReady(b: Bytes, o: Offer)
    requires o.nblobs > 0 && Receive(b, o).ok && InPlay(Receive(b, o).blobs)
    ensures var ds := Receive(b, o).blobs;
      ds != [] && R.Ready(Holding(ds, Some(o.size)), o.root, RecordedChunks(ds), o.size)
  {
    hide Receive, RecordedChunks;
    var ds := Receive(b, o).blobs;
    ReceiveSound(b, o);
    WholeSetNames(o, ds);
    ListWeightIsTotal(ds);
  }

  // ---------------------------------------------------------------- the publisher

  /** A publisher's chunks, and its root last, are the blobs of its set and weigh its size. */
  lemma PublisherReady(c: Bytes)
    requires InPlay(BlobsOf(c))
    ensures R.Ready(Holding(BlobsOf(c), None), RootOf(c), ChunksOf(c), SetSize(c))
  {
    ListWeightIsTotal(BlobsOf(c));
    SetSizeIsTotal(c);
    PublishedNames(c);
  }

  lemma PublishedNames(c: Bytes)
    ensures R.Elems(HashesOf(BlobsOf(c))) == Names(RootOf(c), ChunksOf(c))
  {
    if |c| > CHUNK_SIZE {
      assert HashesOf(BlobsOf(c)) == HashesOf(Pieces(c)) + [RootOf(c)];
    } else {
      assert HashesOf(BlobsOf(c)) == [RootOf(c)];
    }
  }

  /** Each of its steps is one that the runs allow. */
  lemma PublisherSteps(budget: int, s: R.System, id: int, c: Bytes, k: nat)
    requires k < |BlobsOf(c)| && id in s.writers && s.writers[id] == Holding(BlobsOf(c)[..k], None)
    ensures var ds := BlobsOf(c); var claim := R.Claim(id, ContentHash(ds[k]));
      && R.Enabled(budget, s, claim)
      && var t := R.Apply(budget, s, claim); var put := R.Put(id, ContentHash(ds[k]));
         && R.Enabled(budget, t, put)
         && R.Apply(budget, t, put).writers[id] == Holding(ds[..k + 1], None)
  {
    hide AddClaim, PutBlob, BlobsOf;
    NextBlob(BlobsOf(c), k);
  }

  // ---------------------------------------------------------------- chunk lists along runs

  /** The chunks that a root stands for. */
  function ListOf(root: Hash): seq<Hash> {
    match DecodeManifest(BlobOf(root)) case None => [] case Some(m) => m.chunks
  }

  /** A recording with the chunks of its root: every push, and every publish of content that is not a small manifest. */
  ghost predicate RecordsTruly(a: R.Action) {
    R.Records(a) ==> a.chunks == ListOf(a.root)
  }

  lemma PushRecordsTruly(o: Offer, ds: seq<Bytes>)
    requires WholeSet(o, ds) && InPlay(ds)
    ensures RecordedChunks(ds) == ListOf(o.root)
  {
    assert ds[0] in ds;
  }

  lemma PublishRecordsTruly(c: Bytes)
    requires Publishable(c) && Ordinary(c) && InPlay(BlobsOf(c))
    ensures ChunksOf(c) == ListOf(RootOf(c))
  {
    assert BlobsOf(c)[|BlobsOf(c)| - 1] in BlobsOf(c);
    if |c| > CHUNK_SIZE {
      ManifestOfIsValid(c);
      ManifestRoundTrip(ManifestOf(c));
    }
  }

  /** A root that is indexed is so with its own chunks. */
  ghost predicate TrueList(s: R.System, r: Hash) {
    r in s.ix.sets ==> s.ix.sets[r].chunks == ListOf(r)
  }

  /** A root that is indexed is so with its own chunks, or alone, as start-up adopts an incomplete manifest. */
  ghost predicate TrueOrAlone(s: R.System, r: Hash) {
    r in s.ix.sets ==> s.ix.sets[r].chunks == ListOf(r) || s.ix.sets[r].chunks == []
  }

  /** So is everything that start-up adopts; only an entry of the index file can bring in another list. */
  lemma LoadedLists(disk: map<Hash, Bytes>, entries: map<Hash, Meta>, now: int, s: Index, r: Hash)
    requires Loaded(disk, entries, now, s) && Faithful(s) && !Kept(disk, entries, r)
    ensures TrueOrAlone(R.System(s, map[]), r)
  {
    hide RefsExact, NoOrphans, AdoptedLast;
  }

  lemma StepKeepsLists(budget: int, s: R.System, a: R.Action, r: Hash)
    requires R.Enabled(budget, s, a) && RecordsTruly(a)
    ensures TrueList(s, r) ==> TrueList(R.Apply(budget, s, a), r)
    ensures TrueOrAlone(s, r) ==> TrueOrAlone(R.Apply(budget, s, a), r)
  {
    hide ListOf, R.Apply, R.Possible;
    if r in R.Apply(budget, s, a).ix.sets {
      R.StepLists(budget, s, a, R.Apply(budget, s, a).ix, r);
    }
  }

  lemma {:induction false} ListsAlong(budget: int, ss: seq<R.System>, steps: seq<R.Action>, i: nat, j: nat, r: Hash)
    requires H.Run(budget, ss, steps) && i <= j < |ss| && forall k :: i <= k < j ==> RecordsTruly(steps[k])
    ensures TrueList(ss[i], r) ==> TrueList(ss[j], r)
    ensures TrueOrAlone(ss[i], r) ==> TrueOrAlone(ss[j], r)
    decreases j
  {
    if i < j {
      ListsAlong(budget, ss, steps, i, j - 1, r);
      StepKeepsLists(budget, ss[j - 1], steps[j - 1], r);
    }
  }

  /** A push may be recorded whenever its transfer ends: its root was not indexed when it was offered, and if it is
      by now then with the same chunks. */
  lemma PushMayCommit(budget: int, ss: seq<R.System>, steps: seq<R.Action>, i: nat, j: nat, id: int, b: Bytes, o: Offer,
                      from: string, q: Request, victims: seq<Hash>, ok: bool)
    requires H.Run(budget, ss, steps) && i <= j < |ss| && forall k :: i <= k < j ==> RecordsTruly(steps[k])
    requires o.root !in ss[i].ix.sets && o.nblobs > 0 && Receive(b, o).ok && InPlay(Receive(b, o).blobs)
    requires id in ss[j].writers && ss[j].writers[id] == Holding(Receive(b, o).blobs, Some(o.size))
    requires q.size == o.size && q.budget == budget
    requires FitRun(ss[j].ix.sets, Unreserve(ss[j].ix, q.size).reserved, q, victims, ok)
    ensures Receive(b, o).blobs != []
    ensures var chunks := RecordedChunks(Receive(b, o).blobs);
      R.Enabled(budget, ss[j], R.CommitPush(id, o.root, chunks, from, q, victims, ok))
  {
    hide Receive, RecordedChunks, FitRun, ListOf, H.Run;
    ReceiveSound(b, o);
    ReceiverReady(b, o);
    PushRecordsTruly(o, Receive(b, o).blobs);
    ListsAlong(budget, ss, steps, i, j, o.root);
  }

  /** A publish may be recorded whenever it is complete, also over a root that start-up adopted alone. */
  lemma PublishMayRecord(budget: int, s: R.System, id: int, c: Bytes, now: int)
    requires Publishable(c) && Ordinary(c) && InPlay(BlobsOf(c)) && TrueOrAlone(s, RootOf(c))
    requires id in s.writers && s.writers[id] == Holding(BlobsOf(c), None)
    ensures R.Enabled(budget, s, R.Publish(id, RootOf(c), SetSize(c), ChunksOf(c), now))
  {
    hide BlobsOf, ChunksOf, RootOf, SetSize, ListOf;
    PublisherReady(c);
    PublishRecordsTruly(c);
  }

  // ---------------------------------------------------------------- reading back, whoever else is at work

  /** From the state in which its set is recorded, by a publish or by a push, until it is evicted, a content reads back
      exactly, whatever other writers and eviction passes do in between. */
  lemma ReadsBackInRuns(budget: int, ss: seq<R.System>, steps: seq<R.Action>, i: nat, j: nat, c: Bytes)
    requires H.Run(budget, ss, steps) && R.Inv(ss[0]) && i < j < |ss| && R.Records(steps[i])
    requires steps[i].root == RootOf(c) && steps[i].chunks == ChunksOf(c)
    requires forall k :: i < k <= j ==> RootOf(c) in ss[k].ix.sets
    requires Publishable(c) && Ordinary(c) && InPlay(BlobsOf(c))
    ensures Holds(ss[j].ix.disk, c) && ReadBack(ss[j].ix.disk, RootOf(c)) == Some(c)
  {
    hide H.Run, R.Inv, ReadBack, ChunksOf, RootOf, BlobsOf;
    H.RecordedStaysWhole(budget, ss, steps, i, j);
    PublishedNames(c);
    forall d | d in BlobsOf(c) ensures ContentHash(d) in ss[j].ix.disk && ss[j].ix.disk[ContentHash(d)] == d {
      NamedBlob(BlobsOf(c), d);
    }
    PublishedReadsBack(ss[j].ix.disk, c);
  }

  lemma NamedBlob(ds: seq<Bytes>, d: Bytes)
    requires d in ds
    ensures ContentHash(d) in R.Elems(HashesOf(ds))
  {
    var i :| 0 <= i < |ds| && ds[i] == d;
    assert HashesOf(ds)[i] == ContentHash(d);
  }

  /** The stores of these states of a run. */
  ghost function DisksAt(ss: seq<R.System>, js: seq<nat>): (r: seq<map<Hash, Bytes>>)
    requires forall k :: 0 <= k < |js| ==> js[k] < |ss|
    ensures |r| == |js|
  {
    seq(|js|, k requires 0 <= k < |js| => ss[js[k]].ix.disk)
  }

  /** What a sender puts on the wire when it opens each blob of the set in its own state of the run. */
  ghost function PushAcross(ss: seq<R.System>, js: seq<nat>, s: ContentSet): Bytes
    requires |js| == |s.Names()| && forall k :: 0 <= k < |js| ==> js[k] < |ss|
  {
    OfferBytes(s.ToOffer()) + SentAcross(DisksAt(ss, js), s.Names())
  }

  /** Published content is found and sent whole from then on, whoever is at work between one blob and the next: the
      set is loaded in any later state, and each of its blobs read in any later state. */
  lemma SentFromRuns(budget: int, ss: seq<R.System>, steps: seq<R.Action>, i: nat, j: nat, js: seq<nat>, c: Bytes)
    requires Publishable(c) && Ordinary(c) && c != [] && InPlay(BlobsOf(c)) && Framable(SetBlobs(c))
    requires SetSize(c) <= MAX_CONTENT_SIZE
    requires H.Run(budget, ss, steps) && R.Inv(ss[0]) && i < j < |ss| && steps[i].Publish?
    requires steps[i].root == RootOf(c) && steps[i].chunks == ChunksOf(c)
    requires |js| == |PublishedSet(c).Names()| && forall k :: 0 <= k < |js| ==> i < js[k] < |ss|
    ensures LoadedSet(ss[j].ix.disk, RootOf(c)) == Some(PublishedSet(c))
    ensures var o, stream := PublishedSet(c).ToOffer(), PushAcross(ss, js, PublishedSet(c));
      OfferIn(stream) == Some(o) && ReceiveLimited(AfterOffer(stream), o) == Received(SetBlobs(c), true)
  {
    hide H.Run, R.Inv, ReadBack, ChunksOf, RootOf, BlobsOf, SetBlobs, SetSize, ReceiveLimited, OfferIn, AfterOffer,
         SentAcross, Frames, OfferBytes, PublishedSet, Holds;
    HeldLater(budget, ss, steps, i, j, c);
    PublisherLoads(ss[j].ix.disk, c);
    SetNames(c);
    var ds, disks := SetBlobs(c), DisksAt(ss, js);
    forall k | 0 <= k < |ds| ensures ContentHash(ds[k]) in disks[k] && disks[k][ContentHash(ds[k])] == ds[k] {
      HeldLater(budget, ss, steps, i, js[k], c);
      HoldsEach(disks[k], c, k);
    }
    AcrossIsFrames(disks, ds);
    WholeSetReceived(c, PushAcross(ss, js, PublishedSet(c)));
  }

  lemma HeldLater(budget: int, ss: seq<R.System>, steps: seq<R.Action>, i: nat, j: nat, c: Bytes)
    requires H.Run(budget, ss, steps) && R.Inv(ss[0]) && i < j < |ss| && steps[i].Publish?
    requires steps[i].root == RootOf(c) && steps[i].chunks == ChunksOf(c)
    requires Publishable(c) && Ordinary(c) && InPlay(BlobsOf(c))
    ensures Holds(ss[j].ix.disk, c)
  {
    hide H.Run, R.Inv, ReadBack, ChunksOf, RootOf, BlobsOf, Holds;
    PublishedIndexed(budget, ss, steps, i, j);
    ReadsBackInRuns(budget, ss, steps, i, j, c);
  }

  lemma HoldsEach(disk: map<Hash, Bytes>, c: Bytes, k: nat)
    requires Holds(disk, c) && k < |SetBlobs(c)|
    ensures var d := SetBlobs(c)[k]; ContentHash(d) in disk && disk[ContentHash(d)] == d
  {
    SameBlobs(c, SetBlobs(c)[k]);
  }

  /** Publish in a run of one node, send from any later states of it, one for each blob, and commit what was received
      in a run of another: a fetch there returns exactly the bytes that were published, in every state until the set
      is evicted. */
  lemma JourneyAcrossRuns(ba: int, sa: seq<R.System>, pa: seq<R.Action>, p: nat, qs: seq<nat>,
                          bb: int, sb: seq<R.System>, pb: seq<R.Action>, i: nat, j: nat, c: Bytes, o: Offer)
    requires Publishable(c) && Ordinary(c) && c != [] && InPlay(BlobsOf(c)) && Framable(SetBlobs(c))
    requires SetSize(c) <= MAX_CONTENT_SIZE
    requires H.Run(ba, sa, pa) && R.Inv(sa[0]) && p < |pa| && pa[p].Publish?
    requires pa[p].root == RootOf(c) && pa[p].chunks == ChunksOf(c)
    requires |qs| == |PublishedSet(c).Names()| && forall k :: 0 <= k < |qs| ==> p < qs[k] < |sa|
    requires OfferIn(PushAcross(sa, qs, PublishedSet(c))) == Some(o)
    requires H.Run(bb, sb, pb) && R.Inv(sb[0]) && i < j < |sb| && pb[i].CommitPush? && pb[i].ok && pb[i].root == o.root
    requires var received := ReceiveLimited(AfterOffer(PushAcross(sa, qs, PublishedSet(c))), o);
      received.blobs != [] ==> pb[i].chunks == RecordedChunks(received.blobs)
    requires forall k :: i < k <= j ==> o.root in sb[k].ix.sets
    ensures ReadBack(sb[j].ix.disk, RootOf(c)) == Some(c)
  {
    hide H.Run, R.Inv, ReadBack, ChunksOf, RootOf, BlobsOf, SetBlobs, SetSize, PushAcross, ReceiveLimited,
         RecordedChunks;
    SentFromRuns(ba, sa, pa, p, qs[0], qs, c);
    SetChunks(c);
    ReadsBackInRuns(bb, sb, pb, i, j, c);
  }

  lemma PublishedIndexed(budget: int, ss: seq<R.System>, steps: seq<R.Action>, i: nat, j: nat)
    requires H.Run(budget, ss, steps) && R.Inv(ss[0]) && i < j < |ss| && steps[i].Publish?
    ensures forall k :: i < k <= j ==> steps[i].root in ss[k].ix.sets
  {
    forall k | i < k <= j ensures steps[i].root in ss[k].ix.sets {
      H.PublishedContentSurvives(budget, ss, steps, i, k);
    }
  }

  lemma SetChunks(c: Bytes)
    requires Publishable(c) && Ordinary(c)
    ensures SetBlobs(c) != [] && RecordedChunks(SetBlobs(c)) == ChunksOf(c)
  {
    if |c| > CHUNK_SIZE {
      ManifestOfIsValid(c);
      ManifestRoundTrip(ManifestOf(c));
    }
  }
}
