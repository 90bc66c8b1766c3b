/** The push wire format: unsigned varints, hash requests, blobs and offers
    (internal/node/contentnet.go, internal/node/replicate.go). */
module Wire {
  import opened Bytes
  import opened LittleEndian
  import opened Content

  const MAX_HASH_LEN: nat := 128
  const MAX_VARINT_LEN: nat := 10

  // ---------------------------------------------------------------- varints

  function Uvarint(x: nat): (r: Bytes)
    ensures |r| > 0
  {
    if x < 128 then [x] else [x % 128 + 128] + Uvarint(x / 128)
  }

  /** Reads from byte `i` of a varint on; the tenth byte may hold one bit only. */
  function TakeUvarintAt(b: Bytes, i: nat): Option<(nat, Bytes)>
    decreases |b|
  {
    if b == [] || i >= MAX_VARINT_LEN then None
    else if b[0] < 128 then if i == MAX_VARINT_LEN - 1 && b[0] > 1 then None else Some((b[0], b[1..]))
    else
      match TakeUvarintAt(b[1..], i + 1)
      case None => None
      case Some((v, rest)) => Some((b[0] - 128 + 128 * v, rest))
  }

  function TakeUvarint(b: Bytes): Option<(nat, Bytes)> {
    TakeUvarintAt(b, 0)
  }

  /** The values that fit in the bits left after `i` groups of seven. */
  function Room(i: nat): nat
    requires i < MAX_VARINT_LEN
    decreases MAX_VARINT_LEN - i
  {
    if i == MAX_VARINT_LEN - 1 then 2 else 128 * Room(i + 1)
  }

  lemma {:induction false} UvarintRoundTripAt(x: nat, i: nat, rest: Bytes)
    requires i < MAX_VARINT_LEN && x < Room(i)
    ensures TakeUvarintAt(Uvarint(x) + rest, i) == Some((x, rest)) && |Uvarint(x)| <= MAX_VARINT_LEN - i
    decreases MAX_VARINT_LEN - i
  {
    var b := Uvarint(x) + rest;
    if x < 128 {
      assert b[1..] == rest;
    } else {
      assert b[1..] == Uvarint(x / 128) + rest;
      UvarintRoundTripAt(x / 128, i + 1, rest);
    }
  }

  lemma FullRoom()
    ensures Room(0) == 0x1_0000_0000_0000_0000
  {
    assert Room(7) == 128 * Room(8) == 32768;
    assert Room(5) == 128 * Room(6) == 128 * 128 * 32768;
    assert Room(3) == 128 * Room(4) == 128 * 128 * Room(5);
    assert Room(1) == 128 * Room(2) == 128 * 128 * Room(3);
  }

  /** Every 64-bit value is read back, in at most ten bytes. */
  lemma UvarintRoundTrip(x: uint64, rest: Bytes)
    ensures TakeUvarint(Uvarint(x) + rest) == Some((x, rest)) && |Uvarint(x)| <= MAX_VARINT_LEN
  {
    FullRoom();
    UvarintRoundTripAt(x, 0, rest);
  }

  // ---------------------------------------------------------------- requests, blobs and offers

  function RequestBytes(hash: Hash): Bytes {
    Uvarint(|hash|) + hash
  }

  function TakeRequest(b: Bytes): Option<(Hash, Bytes)> {
    match TakeUvarint(b)
    case None => None
    case Some((n, rest)) => if n == 0 || n > MAX_HASH_LEN then None else TakeBytes(rest, n)
  }

  lemma RequestRoundTrip(hash: Hash, rest: Bytes)
    requires 0 < |hash| <= MAX_HASH_LEN
    ensures TakeRequest(RequestBytes(hash) + rest) == Some((hash, rest))
    ensures |RequestBytes(hash)| <= MAX_VARINT_LEN + MAX_HASH_LEN
  {
    assert RequestBytes(hash) + rest == Uvarint(|hash|) + (hash + rest);
    UvarintRoundTrip(|hash|, hash + rest);
    TakeBytesAppend(hash, rest);
  }

  function BlobBytes(data: Bytes): Bytes {
    Uvarint(|data|) + data
  }

  /** A non-empty blob no longer than `max` and the protocol's own limit. */
  function TakeBlob(b: Bytes, max: nat): Option<(Bytes, Bytes)> {
    match TakeUvarint(b)
    case None => None
    case Some((n, rest)) => if n == 0 || n > max || n > MAX_BLOB_SIZE then None else TakeBytes(rest, n)
  }

  lemma BlobRoundTrip(data: Bytes, max: nat, rest: Bytes)
    requires 0 < |data| <= max && |data| <= MAX_BLOB_SIZE
    ensures TakeBlob(BlobBytes(data) + rest, max) == Some((data, rest))
    ensures |BlobBytes(data)| <= MAX_VARINT_LEN + |data|
  {
    assert BlobBytes(data) + rest == Uvarint(|data|) + (data + rest);
    UvarintRoundTrip(|data|, data + rest);
    TakeBytesAppend(data, rest);
  }

  datatype Offer = Offer(root: Hash, size: nat, nblobs: nat)

  predicate ValidOffer(o: Offer) {
    IsContentHash(o.root) && 0 < o.size <= MAX_CONTENT_SIZE && 0 < o.nblobs <= 1 + MAX_MANIFEST_CHUNKS
  }

  function OfferBytes(o: Offer): Bytes {
    RequestBytes(o.root) + (Uvarint(o.size) + Uvarint(o.nblobs))
  }

  function TakeCounts(root: Hash, b: Bytes): Option<(Offer, Bytes)> {
    match TakeUvarint(b)
    case None => None
    case Some((size, b1)) =>
      match TakeUvarint(b1)
      case None => None
      case Some((nblobs, b2)) =>
        if ValidOffer(Offer(root, size, nblobs)) then Some((Offer(root, size, nblobs), b2)) else None
  }

  function TakeOffer(b: Bytes): Option<(Offer, Bytes)> {
    match TakeRequest(b)
    case None => None
    case Some((root, rest)) => TakeCounts(root, rest)
  }

  /** An offer is read back exactly when it is one the receiver considers at all. */
  lemma OfferRoundTrip(o: Offer, rest: Bytes)
    requires 0 < |o.root| <= MAX_HASH_LEN && o.size < 0x1_0000_0000_0000_0000 && o.nblobs < 0x1_0000_0000_0000_0000
    ensures TakeOffer(OfferBytes(o) + rest) ==
      if IsContentHash(o.root) && 0 < o.size <= 1073741824 && 0 < o.nblobs <= 129 then Some((o, rest)) else None
  {
    var counts := Uvarint(o.size) + (Uvarint(o.nblobs) + rest);
    assert OfferBytes(o) + rest == RequestBytes(o.root) + counts;
    RequestRoundTrip(o.root, counts);
    UvarintRoundTrip(o.size, Uvarint(o.nblobs) + rest);
    UvarintRoundTrip(o.nblobs, rest);
  }
}
