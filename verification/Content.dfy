/** Content addressing: hashes, manifests and the blob store (internal/content/content.go). */
module Content {
  import opened Bytes

  const MAX_BLOB_SIZE: nat := 33554432
  const CHUNK_SIZE: nat := 8388608
  const MAX_CONTENT_SIZE: nat := 1073741824
  const MAX_MANIFEST_CHUNKS: nat := 128

  /** The text form of a content hash, as bytes. */
  type Hash = Bytes

  /** SHA-256 in its base36 multihash form; nothing is assumed of it here. */
  const ContentHash: Bytes -> Hash

  /** Whether a string is a well-formed content hash. */
  const IsContentHash: Hash -> bool

  datatype ChunkManifest = ChunkManifest(totalSize: int, chunkSize: int, chunks: seq<Hash>) {
    function ChunkLen(i: int): int {
      if i == |chunks| - 1 then totalSize - Times(|chunks| - 1, chunkSize) else chunkSize
    }
  }

  /** `n` times `k`, as a repeated sum. */
  function Times(n: int, k: int): int
    decreases if n < 0 then 0 else n
  {
    if n <= 0 then 0 else Times(n - 1, k) + k
  }

  lemma {:induction false} TimesIsProduct(n: nat, k: int)
    ensures Times(n, k) == n * k
  {
    if n > 0 {
      TimesIsProduct(n - 1, k);
      assert n * k == (n - 1) * k + k;
    }
  }

  /** The JSON body of a manifest, written and read; nothing is assumed of either here. */
  const MarshalBody: ChunkManifest -> Bytes
  const UnmarshalBody: Bytes -> Option<ChunkManifest>

  /** The 25 bytes of "freedom-names/manifest@1\n". */
  const MAGIC: Bytes := [102, 114, 101, 101, 100, 111, 109, 45, 110, 97, 109, 101, 115, 47,
                         109, 97, 110, 105, 102, 101, 115, 116, 64, 49, 10]

  predicate ValidManifest(m: ChunkManifest) {
    && 1 <= m.chunkSize <= MAX_BLOB_SIZE
    && 2 <= |m.chunks| <= MAX_MANIFEST_CHUNKS
    && m.totalSize <= MAX_CONTENT_SIZE
    && Times(|m.chunks| - 1, m.chunkSize) < m.totalSize <= Times(|m.chunks|, m.chunkSize)
    && (forall h :: h in m.chunks ==> IsContentHash(h))
  }

  lemma ManifestPositive(m: ChunkManifest)
    requires ValidManifest(m)
    ensures m.totalSize > 0
  {
    TimesNonNegative(|m.chunks| - 1, m.chunkSize);
  }

  lemma {:induction false} TimesNonNegative(n: int, k: nat)
    ensures Times(n, k) >= 0
    decreases if n < 0 then 0 else n
  {
    if n > 0 {
      TimesNonNegative(n - 1, k);
    }
  }

  function EncodeManifest(m: ChunkManifest): Bytes {
    MAGIC + MarshalBody(m)
  }

  function DecodeManifest(data: Bytes): (r: Option<ChunkManifest>)
    ensures r.Some? ==> ValidManifest(r.value)
  {
    if !(MAGIC <= data) then None
    else
      match UnmarshalBody(data[|MAGIC|..])
      case None => None
      case Some(m) => if ValidManifest(m) then Some(m) else None
  }

  lemma ManifestRoundTrip(m: ChunkManifest)
    requires UnmarshalBody(MarshalBody(m)) == Some(m)
    ensures DecodeManifest(EncodeManifest(m)) == if ValidManifest(m) then Some(m) else None
  {
    assert EncodeManifest(m)[|MAGIC|..] == MarshalBody(m);
  }

  /** Storing is idempotent, a blob already present is left alone, and one over the size limit is refused. */
  function Stored(disk: map<Hash, Bytes>, data: Bytes): map<Hash, Bytes> {
    if |data| > MAX_BLOB_SIZE || ContentHash(data) in disk then disk else disk[ContentHash(data) := data]
  }

  class BlobStore {
    var disk: map<Hash, Bytes>

    constructor (disk: map<Hash, Bytes>)
      ensures this.disk == disk
    {
      this.disk := disk;
    }

    method Put(data: Bytes) returns (r: Option<Hash>)
      modifies this
      ensures disk == Stored(old(disk), data)
      ensures r == if |data| <= MAX_BLOB_SIZE then Some(ContentHash(data)) else None
    {
      if |data| > MAX_BLOB_SIZE {
        return None;
      }
      var hash := ContentHash(data);
      if hash !in disk {
        disk := disk[hash := data];
      }
      r := Some(hash);
    }

    method Get(hash: Hash) returns (r: Option<Bytes>)
      ensures r == if hash in disk then Some(disk[hash]) else None
    {
      r := if hash in disk then Some(disk[hash]) else None;
    }

    /** Removing a missing blob is not an error. */
    method Delete(hash: Hash)
      modifies this
      ensures disk == old(disk) - {hash}
    {
      disk := disk - {hash};
    }
  }
}
