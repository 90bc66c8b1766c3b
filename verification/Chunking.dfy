/** Splitting content into chunk blobs and a manifest, and reading it back
    (internal/node/contentnet.go, internal/content/content.go). */
module Chunking {
  import opened Bytes
  import opened LittleEndian
  import opened Content

  function Min(a: nat, b: nat): nat {
    if a <= b then a else b
  }

  /** Consecutive pieces of `CHUNK_SIZE` bytes; the last one holds what is left. */
  function Pieces(c: Bytes): seq<Bytes>
    decreases |c|
  {
    if c == [] then []
    else
      var k := Min(CHUNK_SIZE, |c|);
      [c[..k]] + Pieces(c[k..])
  }

  lemma {:induction false} PiecesJoin(c: Bytes)
    ensures Concat(Pieces(c)) == c
    decreases |c|
  {
    if c != [] {
      var k := Min(CHUNK_SIZE, |c|);
      PiecesJoin(c[k..]);
      assert Pieces(c)[1..] == Pieces(c[k..]);
      assert c == c[..k] + c[k..];
    }
  }

  /** All pieces are full but the last, which holds between one byte and a full chunk. */
  lemma {:induction false} PieceLengths(c: Bytes)
    ensures 8388608 * (|Pieces(c)| - 1) < |c| <= 8388608 * |Pieces(c)| || c == []
    ensures forall i :: 0 <= i < |Pieces(c)| - 1 ==> |Pieces(c)[i]| == 8388608
    ensures c != [] ==> |Pieces(c)| > 0 && |Pieces(c)[|Pieces(c)| - 1]| == |c| - CHUNK_SIZE * (|Pieces(c)| - 1)
    decreases |c|
  {
    if c != [] {
      var k := Min(CHUNK_SIZE, |c|);
      var ps, rest := Pieces(c), Pieces(c[k..]);
      assert ps == [c[..k]] + rest;
      PieceLengths(c[k..]);
      if |c| <= CHUNK_SIZE {
        assert c[k..] == [];
      } else {
        assert forall i :: 1 <= i < |ps| ==> ps[i] == rest[i - 1];
      }
    }
  }

  function HashesOf(blobs: seq<Bytes>): (r: seq<Hash>)
    ensures |r| == |blobs|
  {
    seq(|blobs|, i requires 0 <= i < |blobs| => ContentHash(blobs[i]))
  }

  function ManifestOf(c: Bytes): ChunkManifest {
    ChunkManifest(|c|, CHUNK_SIZE, HashesOf(Pieces(c)))
  }

  /** Every content hash has the well-formed shape that decoding insists on. */
  ghost predicate HashesWellFormed() {
    forall d: Bytes :: IsContentHash(ContentHash(d))
  }

  /** The manifest of any chunked content passes the strict checks, and each declared length is the piece's own. */
  lemma ManifestOfIsValid(c: Bytes)
    requires CHUNK_SIZE < |c| <= MAX_CONTENT_SIZE && HashesWellFormed()
    ensures ValidManifest(ManifestOf(c))
    ensures forall i :: 0 <= i < |Pieces(c)| ==>
      ManifestOf(c).ChunkLen(i) == |Pieces(c)[i]| && 1 <= |Pieces(c)[i]| <= CHUNK_SIZE
  {
    PieceLengths(c);
    var m, n := ManifestOf(c), |Pieces(c)|;
    TimesIsProduct(n - 1, CHUNK_SIZE);
    TimesIsProduct(n, CHUNK_SIZE);
    assert 2 <= n <= MAX_MANIFEST_CHUNKS;
    forall h | h in m.chunks ensures IsContentHash(h) {
      var i :| 0 <= i < n && m.chunks[i] == h;
      assert h == ContentHash(Pieces(c)[i]);
    }
  }

  /** The blobs a publish writes, in order; the last one is the root. */
  function BlobsOf(c: Bytes): (r: seq<Bytes>)
    ensures |r| > 0
  {
    if |c| <= CHUNK_SIZE then [c] else Pieces(c) + [EncodeManifest(ManifestOf(c))]
  }

  function RootOf(c: Bytes): Hash {
    ContentHash(BlobsOf(c)[|BlobsOf(c)| - 1])
  }

  function ChunksOf(c: Bytes): seq<Hash> {
    if |c| <= CHUNK_SIZE then [] else HashesOf(Pieces(c))
  }

  function TotalLength(blobs: seq<Bytes>): nat {
    if blobs == [] then 0 else TotalLength(blobs[..|blobs| - 1]) + |blobs[|blobs| - 1]|
  }

  // ---------------------------------------------------------------- reading back

  function BlobIn(disk: map<Hash, Bytes>, h: Hash): Bytes {
    if h in disk then disk[h] else []
  }

  /** The bytes of a list of chunks. */
  function ChunkBytes(disk: map<Hash, Bytes>, chunks: seq<Hash>): Bytes {
    if chunks == [] then [] else BlobIn(disk, chunks[0]) + ChunkBytes(disk, chunks[1..])
  }

  ghost predicate ChunkIntact(disk: map<Hash, Bytes>, m: ChunkManifest, i: nat)
    requires i < |m.chunks|
  {
    m.chunks[i] in disk && |disk[m.chunks[i]]| == m.ChunkLen(i)
  }

  ghost predicate Intact(disk: map<Hash, Bytes>, m: ChunkManifest) {
    forall i :: 0 <= i < |m.chunks| ==> ChunkIntact(disk, m, i)
  }

  lemma {:induction false} FullChunks(disk: map<Hash, Bytes>, chunks: seq<Hash>, size: nat, last: nat)
    requires chunks != [] && forall i :: 0 <= i < |chunks| ==>
               chunks[i] in disk && |disk[chunks[i]]| == if i == |chunks| - 1 then last else size
    ensures |ChunkBytes(disk, chunks)| == Times(|chunks| - 1, size) + last
    decreases |chunks|
  {
    if |chunks| == 1 {
      assert chunks[1..] == [];
    } else {
      FullChunks(disk, chunks[1..], size, last);
    }
  }

  /** The chunks of any valid manifest, when they have the lengths it declares, make up exactly its total size. */
  lemma IntactLength(disk: map<Hash, Bytes>, m: ChunkManifest)
    requires ValidManifest(m) && Intact(disk, m)
    ensures |ChunkBytes(disk, m.chunks)| == m.totalSize
  {
    forall i | 0 <= i < |m.chunks|
      ensures m.chunks[i] in disk && |disk[m.chunks[i]]| == m.ChunkLen(i)
    {
      assert ChunkIntact(disk, m, i);
    }
    FullChunks(disk, m.chunks, m.chunkSize, m.ChunkLen(|m.chunks| - 1));
  }

  /** What a fetch of `root` from this store yields: a plain blob as it is, a manifest expanded. */
  ghost function ReadBack(disk: map<Hash, Bytes>, root: Hash): Option<Bytes> {
    if root !in disk then None
    else
      match DecodeManifest(disk[root])
      case None => Some(disk[root])
      case Some(m) => if Intact(disk, m) then Some(ChunkBytes(disk, m.chunks)) else None
  }

  datatype ReadResult = Data(bytes: Bytes) | Eof | Failed

  class ChunkReader {
    const manifest: ChunkManifest
    const store: BlobStore
    var next: nat
    var cur: Bytes

    constructor (manifest: ChunkManifest, store: BlobStore)
      ensures this.manifest == manifest && this.store == store && next == 0 && cur == []
      ensures Valid() && Rest() == ChunkBytes(store.disk, manifest.chunks)
    {
      this.manifest, this.store, next, cur := manifest, store, 0, [];
    }

    ghost predicate Valid()
      reads this
    {
      next <= |manifest.chunks|
    }

    /** Everything still to be read. */
    ghost function Rest(): Bytes
      requires Valid()
      reads this, store
    {
      cur + ChunkBytes(store.disk, manifest.chunks[next..])
    }

    /** Up to `n` bytes; chunks are fetched on demand and checked against the manifest. */
    method Read(n: nat) returns (r: ReadResult)
      requires Valid()
      modifies this
      ensures Valid()
      ensures r.Data? ==> |r.bytes| <= n && old(Rest()) == r.bytes + Rest() && (n > 0 ==> r.bytes != [])
      ensures r.Eof? ==> old(Rest()) == [] && next == |manifest.chunks| && old(cur) == []
                         && forall i :: old(next) <= i < next ==> ChunkIntact(store.disk, manifest, i)
      ensures r.Failed? ==> !Intact(store.disk, manifest)
      ensures !r.Failed? ==>
        old(next) <= next && forall i :: old(next) <= i < next ==> ChunkIntact(store.disk, manifest, i)
    {
      while cur == []
        invariant Valid() && Rest() == old(Rest()) && old(next) <= next
        invariant next > old(next) ==> old(cur) == []
        invariant forall i :: old(next) <= i < next ==> ChunkIntact(store.disk, manifest, i)
        decreases |manifest.chunks| - next, cur == []
      {
        if next >= |manifest.chunks| {
          return Eof;
        }
        var h := manifest.chunks[next];
        var data := store.Get(h);
        if data.None? || |data.value| != manifest.ChunkLen(next) {
          assert !ChunkIntact(store.disk, manifest, next);
          return Failed;
        }
        assert manifest.chunks[next..][1..] == manifest.chunks[next + 1..];
        next := next + 1;
        cur := data.value;
      }
      var k := Min(n, |cur|);
      assert cur == cur[..k] + cur[k..];
      r := Data(cur[..k]);
      cur := cur[k..];
    }
  }

  lemma {:induction false} ChunkBytesOfPieces(disk: map<Hash, Bytes>, ps: seq<Bytes>)
    requires forall i :: 0 <= i < |ps| ==> ContentHash(ps[i]) in disk && disk[ContentHash(ps[i])] == ps[i]
    ensures ChunkBytes(disk, HashesOf(ps)) == Concat(ps)
    decreases |ps|
  {
    if ps != [] {
      assert HashesOf(ps)[1..] == HashesOf(ps[1..]);
      assert HashesOf(ps)[0] == ContentHash(ps[0]);
      ChunkBytesOfPieces(disk, ps[1..]);
    } else {
      assert HashesOf(ps) == [];
    }
  }

  /** A store holding a publish's blobs gives the content back, unless a small file is itself a manifest. */
  lemma PublishedReadsBack(disk: map<Hash, Bytes>, c: Bytes)
    requires |c| <= MAX_CONTENT_SIZE && HashesWellFormed()
    requires UnmarshalBody(MarshalBody(ManifestOf(c))) == Some(ManifestOf(c))
    requires |c| <= CHUNK_SIZE ==> DecodeManifest(c).None?
    requires forall b :: b in BlobsOf(c) ==> ContentHash(b) in disk && disk[ContentHash(b)] == b
    ensures ReadBack(disk, RootOf(c)) == Some(c)
  {
    if |c| <= CHUNK_SIZE {
      assert c in BlobsOf(c);
    } else {
      var m, ps := ManifestOf(c), Pieces(c);
      assert BlobsOf(c)[|ps|] == EncodeManifest(m);
      assert EncodeManifest(m) in BlobsOf(c);
      ManifestOfIsValid(c);
      ManifestRoundTrip(m);
      forall i | 0 <= i < |ps| ensures ContentHash(ps[i]) in disk && disk[ContentHash(ps[i])] == ps[i] {
        assert BlobsOf(c)[i] == ps[i];
      }
      forall i | 0 <= i < |m.chunks| ensures ChunkIntact(disk, m, i) {
        assert m.chunks[i] == ContentHash(ps[i]);
      }
      ChunkBytesOfPieces(disk, ps);
      PiecesJoin(c);
    }
  }
}
