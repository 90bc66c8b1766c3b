/** The publisher's side as functions: the index a publish leaves, and what a sender writes from its store
    (internal/node/contentnet.go, internal/node/replicate.go). */
module Publishing {
  import opened Bytes
  import opened Content
  import opened IndexModel
  import opened Chunking
  import opened Wire
  import opened PushProtocol
  import opened Transfers

  // ---------------------------------------------------------------- cutting a stream into chunks

  /** The next chunk of a stream, and the chunks after it. */
  lemma PiecesStep(rest: Bytes)
    requires rest != []
    ensures var k := Min(CHUNK_SIZE, |rest|);
      k > 0 && Pieces(rest) == [rest[..k]] + Pieces(rest[k..]) && (k < CHUNK_SIZE ==> rest[k..] == [])
  {
  }

  lemma {:induction false} TotalOfPieces(c: Bytes)
    ensures TotalFront(Pieces(c)) == |c|
    decreases |c|
  {
    if c != [] {
      PiecesStep(c);
      TotalOfPieces(c[Min(CHUNK_SIZE, |c|)..]);
    }
  }

  /** The first chunk, taken off the look-ahead buffer. */
  lemma FirstChunk(s: Index, head: Bytes, rest: Bytes)
    requires |head| == CHUNK_SIZE + 1
    ensures Pieces(head + rest) == [head[..CHUNK_SIZE]] + Pieces(head[CHUNK_SIZE..] + rest)
    ensures AfterPuts(s, [head[..CHUNK_SIZE]]) == PutStep(s, head[..CHUNK_SIZE])
    ensures HashesOf([head[..CHUNK_SIZE]]) == [ContentHash(head[..CHUNK_SIZE])]
  {
    var c, d := head + rest, head[..CHUNK_SIZE];
    PiecesStep(c);
    assert c[..CHUNK_SIZE] == d && c[CHUNK_SIZE..] == head[CHUNK_SIZE..] + rest;
    AfterPutsStep(s, [], d);
    assert [] + [d] == [d] && HashesOf([]) == [];
  }

  /** Every later chunk: a full one, or all that is left. */
  lemma NextChunk(s: Index, wrote: seq<Bytes>, fill: Bytes, rest: Bytes)
    requires 0 < |fill| <= CHUNK_SIZE && (|fill| < CHUNK_SIZE ==> rest == [])
    ensures wrote + Pieces(fill + rest) == wrote + [fill] + Pieces(rest)
    ensures AfterPuts(s, wrote + [fill]) == PutStep(AfterPuts(s, wrote), fill)
    ensures HashesOf(wrote + [fill]) == HashesOf(wrote) + [ContentHash(fill)]
  {
    var c := fill + rest;
    PiecesStep(c);
    assert c[..|fill|] == fill && c[|fill|..] == rest;
    AfterPutsStep(s, wrote, fill);
  }

  /** What publishing needs: the content within the limit and its manifest, if it has one, small enough for a blob. */
  predicate Publishable(c: Bytes) {
    |c| <= MAX_CONTENT_SIZE && (|c| > CHUNK_SIZE ==> |EncodeManifest(ManifestOf(c))| <= MAX_BLOB_SIZE)
  }

  function SetSize(c: Bytes): nat {
    if |c| <= CHUNK_SIZE then |c| else |EncodeManifest(ManifestOf(c))| + |c|
  }

  /** The recorded size is the weight of all the blobs. */
  lemma SetSizeIsTotal(c: Bytes)
    ensures SetSize(c) == TotalLength(BlobsOf(c))
  {
    if |c| <= CHUNK_SIZE {
      TotalStep([], c);
      assert [] + [c] == [c];
    } else {
      TotalOfPieces(c);
      TotalsAgree([], Pieces(c));
      assert [] + Pieces(c) == Pieces(c);
      TotalStep(Pieces(c), EncodeManifest(ManifestOf(c)));
    }
  }

  /** The index after a publish: every blob claimed and written, then the set recorded as owned. */
  function Published(s: Index, c: Bytes, now: int): Index {
    MarkOwned(AfterPuts(s, BlobsOf(c)), RootOf(c), SetSize(c), ChunksOf(c), HashesOf(BlobsOf(c)), now)
  }

  lemma PublishedWhole(s: Index, c: Bytes, hs: seq<Hash>, now: int, t: Index)
    requires |c| <= CHUNK_SIZE && hs == [ContentHash(c)]
    requires t == MarkOwned(PutStep(s, c), ContentHash(c), |c|, [], hs, now)
    ensures t == Published(s, c, now)
    ensures RootOf(c) == ContentHash(c) && Publishable(c) && BlobsOf(c) == [c]
  {
    hide MarkOwned, PutStep;
    AfterPutsStep(s, [], c);
    assert [] + [c] == [c] && HashesOf([]) == [];
    assert HashesOf([c]) == hs && AfterPuts(s, [c]) == PutStep(s, c);
  }

  lemma ManifestPut(s: Index, c: Bytes)
    requires |c| > CHUNK_SIZE
    ensures var data, ps := EncodeManifest(ManifestOf(c)), Pieces(c);
      && RootOf(c) == ContentHash(data) && BlobsOf(c) == ps + [data]
      && AfterPuts(s, BlobsOf(c)) == PutStep(AfterPuts(s, ps), data)
      && HashesOf(BlobsOf(c)) == HashesOf(ps) + [ContentHash(data)]
  {
    AfterPutsStep(s, Pieces(c), EncodeManifest(ManifestOf(c)));
  }

  lemma PublishedChunked(s: Index, c: Bytes, data: Bytes, before: Index, hs: seq<Hash>, now: int, t: Index)
    requires |c| > CHUNK_SIZE && data == EncodeManifest(ManifestOf(c))
    requires before == AfterPuts(s, BlobsOf(c)) && hs == HashesOf(BlobsOf(c))
    requires t == MarkOwned(before, RootOf(c), |data| + |c|, ManifestOf(c).chunks, hs, now)
    ensures t == Published(s, c, now)
  {
    hide MarkOwned, AfterPuts;
  }

  // ---------------------------------------------------------------- a set read from the store

  datatype ContentSet = ContentSet(root: Hash, size: nat, chunks: seq<Hash>) {
    function Names(): seq<Hash> {
      [root] + chunks
    }

    function ToOffer(): Offer {
      Offer(root, size, 1 + |chunks|)
    }
  }

  function LoadedSet(disk: map<Hash, Bytes>, root: Hash): Option<ContentSet> {
    if root !in disk then None
    else
      match DecodeManifest(disk[root])
      case None => Some(ContentSet(root, |disk[root]|, []))
      case Some(m) => ManifestPositive(m); Some(ContentSet(root, |disk[root]| + m.totalSize, m.chunks))
  }

  // ---------------------------------------------------------------- sending it

  /** What a sender writes for a list of blobs: their frames, up to the first one missing from its store. */
  function SentFrames(disk: map<Hash, Bytes>, names: seq<Hash>): Bytes {
    if names == [] || names[0] !in disk then []
    else RequestBytes(names[0]) + BlobBytes(disk[names[0]]) + SentFrames(disk, names[1..])
  }

  lemma {:induction false} SentSplits(disk: map<Hash, Bytes>, names: seq<Hash>, k: nat)
    requires k <= |names| && forall i :: 0 <= i < k ==> names[i] in disk
    ensures SentFrames(disk, names) == SentFrames(disk, names[..k]) + SentFrames(disk, names[k..])
    decreases k
  {
    if k > 0 {
      SentSplits(disk, names[1..], k - 1);
      assert names[1..][..k - 1] == names[..k][1..] && names[1..][k - 1..] == names[k..];
    } else {
      assert names[..0] == [] && names[0..] == names;
    }
  }

  /** Sending one more blob. */
  lemma SentStep(disk: map<Hash, Bytes>, names: seq<Hash>, k: nat)
    requires k < |names| && forall i :: 0 <= i <= k ==> names[i] in disk
    ensures SentFrames(disk, names[..k + 1])
         == SentFrames(disk, names[..k]) + (RequestBytes(names[k]) + BlobBytes(disk[names[k]]))
  {
    SentSplits(disk, names[..k + 1], k);
    assert names[..k + 1][..k] == names[..k] && names[..k + 1][k..] == [names[k]];
    assert SentFrames(disk, [names[k]]) == RequestBytes(names[k]) + BlobBytes(disk[names[k]]);
  }

  /** The sender stops at the first blob it does not have. */
  lemma SentStops(disk: map<Hash, Bytes>, names: seq<Hash>, k: nat)
    requires k < |names| && names[k] !in disk && forall i :: 0 <= i < k ==> names[i] in disk
    ensures SentFrames(disk, names) == SentFrames(disk, names[..k])
  {
    SentSplits(disk, names, k);
  }

  /** A store that holds blobs under their own hashes sends exactly their frames. */
  lemma {:induction false} SentIsFrames(disk: map<Hash, Bytes>, blobs: seq<Bytes>)
    requires forall b :: b in blobs ==> ContentHash(b) in disk && disk[ContentHash(b)] == b
    ensures SentFrames(disk, HashesOf(blobs)) == Frames(blobs)
    decreases |blobs|
  {
    if blobs == [] {
      assert HashesOf(blobs) == [] && FrameParts(blobs) == [];
    } else {
      SentIsFrames(disk, blobs[1..]);
      assert blobs[0] in blobs && HashesOf(blobs)[0] == ContentHash(blobs[0]);
      assert HashesOf(blobs)[1..] == HashesOf(blobs[1..]);
      assert FrameParts(blobs)[1..] == FrameParts(blobs[1..]);
      assert FrameParts(blobs)[0] == FrameBytes(blobs[0]);
    }
  }

  /** The same with each blob opened when its turn comes, in whatever the store has become by then. */
  function SentAcross(disks: seq<map<Hash, Bytes>>, names: seq<Hash>): Bytes
    requires |disks| == |names|
  {
    if names == [] || names[0] !in disks[0] then []
    else RequestBytes(names[0]) + BlobBytes(disks[0][names[0]]) + SentAcross(disks[1..], names[1..])
  }

  /** When each blob is there with its own bytes at its turn, the stores as a whole send what any one of them that
      holds them all would. */
  lemma {:induction false} AcrossIsFrames(disks: seq<map<Hash, Bytes>>, blobs: seq<Bytes>)
    requires |disks| == |blobs|
    requires forall k :: 0 <= k < |blobs| ==>
      ContentHash(blobs[k]) in disks[k] && disks[k][ContentHash(blobs[k])] == blobs[k]
    ensures SentAcross(disks, HashesOf(blobs)) == Frames(blobs)
    decreases |blobs|
  {
    if blobs == [] {
      assert HashesOf(blobs) == [] && FrameParts(blobs) == [];
    } else {
      AcrossIsFrames(disks[1..], blobs[1..]);
      assert HashesOf(blobs)[0] == ContentHash(blobs[0]) && HashesOf(blobs)[1..] == HashesOf(blobs[1..]);
      assert FrameParts(blobs)[1..] == FrameParts(blobs[1..]);
      assert FrameParts(blobs)[0] == FrameBytes(blobs[0]);
    }
  }

  /** A store that nobody changes in between sends the same either way. */
  lemma {:induction false} AcrossOneStore(disks: seq<map<Hash, Bytes>>, disk: map<Hash, Bytes>, names: seq<Hash>)
    requires |disks| == |names| && forall k :: 0 <= k < |disks| ==> disks[k] == disk
    ensures SentAcross(disks, names) == SentFrames(disk, names)
    decreases |names|
  {
    if names != [] && names[0] in disk {
      AcrossOneStore(disks[1..], disk, names[1..]);
    }
  }
}
