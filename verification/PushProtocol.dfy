/** The two sides of a push as functions of the byte stream: what a receiver accepts, and what an honest sender
    writes (internal/node/replicate.go). */
module PushProtocol {
  import opened Bytes
  import opened LittleEndian
  import opened Content
  import opened Chunking
  import opened Wire

  // ---------------------------------------------------------------- receiving

  /** The checks on blob number `|done|` once its bytes are in hand. */
  predicate Acceptable(o: Offer, done: seq<Bytes>, hash: Hash, data: Bytes) {
    && ContentHash(data) == hash
    && if done == [] then
         && hash == o.root
         && (match DecodeManifest(data) case Some(m) => o.nblobs == 1 + |m.chunks| case None => o.nblobs == 1)
       else
         match DecodeManifest(done[0])
         case None => false
         case Some(m) =>
           && |done| <= |m.chunks| && hash == m.chunks[|done| - 1]
           && |data| == m.ChunkLen(|done| - 1)
  }

  /** One blob off the stream, never longer than what is left of the offered size. */
  function TakeFrame(b: Bytes, max: nat): Option<((Hash, Bytes), Bytes)> {
    match TakeRequest(b)
    case None => None
    case Some((hash, b1)) =>
      match TakeBlob(b1, max)
      case None => None
      case Some((data, b2)) => Some(((hash, data), b2))
  }

  datatype Received = Received(blobs: seq<Bytes>, ok: bool)

  /** Reads one frame of at most the given blob length off the front of a stream. */
  type FrameReader = (Bytes, nat) -> Option<((Hash, Bytes), Bytes)>

  /** Decides on a blob and its announced hash, given the blobs accepted before it. */
  type BlobCheck = (seq<Bytes>, Hash, Bytes) -> bool

  function Check(o: Offer): BlobCheck {
    (done, hash, data) => Acceptable(o, done, hash, data)
  }

  /** All blobs accepted before the first fault; ok when `n` arrived and weigh `size`. */
  function ReceiveWith(p: FrameReader, check: BlobCheck, b: Bytes, n: nat, size: nat, done: seq<Bytes>): Received
    requires |done| <= n
    decreases n - |done|
  {
    if |done| == n then Received(done, TotalLength(done) == size)
    else if TotalLength(done) > size then Received(done, false)
    else
      match p(b, size - TotalLength(done))
      case None => Received(done, false)
      case Some(((hash, data), rest)) =>
        if check(done, hash, data) then ReceiveWith(p, check, rest, n, size, done + [data]) else Received(done, false)
  }

  function Receive(b: Bytes, o: Offer): Received {
    ReceiveWith(TakeFrame, Check(o), b, o.nblobs, o.size, [])
  }

  /** Every blob passed the check at its place. */
  ghost predicate Chain(check: BlobCheck, blobs: seq<Bytes>) {
    forall i :: 0 <= i < |blobs| ==>
      check(blobs[..i], ContentHash(blobs[i]), blobs[i]) && 0 < |blobs[i]| <= MAX_BLOB_SIZE
  }

  lemma TotalStep(done: seq<Bytes>, data: Bytes)
    ensures TotalLength(done + [data]) == TotalLength(done) + |data|
  {
    assert (done + [data])[..|done|] == done;
  }

  lemma ChainStep(check: BlobCheck, done: seq<Bytes>, data: Bytes)
    requires Chain(check, done) && check(done, ContentHash(data), data) && 0 < |data| <= MAX_BLOB_SIZE
    ensures Chain(check, done + [data])
  {
    var next := done + [data];
    forall i | 0 <= i < |next|
      ensures check(next[..i], ContentHash(next[i]), next[i]) && 0 < |next[i]| <= MAX_BLOB_SIZE
    {
      if i < |done| {
        assert next[..i] == done[..i];
      } else {
        assert next[..i] == done;
      }
    }
  }

  /** No frame carries an empty blob or one longer than asked for. */
  ghost predicate Bounded(p: FrameReader) {
    forall b, max :: p(b, max).Some? ==> 0 < |p(b, max).value.0.1| <= max && |p(b, max).value.0.1| <= MAX_BLOB_SIZE
  }

  lemma FramesBounded()
    ensures Bounded(TakeFrame)
  {
  }

  /** The check never passes a blob under a hash that is not its own. */
  ghost predicate Hashes(check: BlobCheck) {
    forall done, hash, data :: check(done, hash, data) ==> hash == ContentHash(data)
  }

  lemma {:induction false} ReceiveWithSound(p: FrameReader, check: BlobCheck, b: Bytes, n: nat, size: nat,
                                        done: seq<Bytes>)
    requires Bounded(p) && Hashes(check) && |done| <= n && Chain(check, done) && TotalLength(done) <= size
    ensures var r := ReceiveWith(p, check, b, n, size, done);
      && done <= r.blobs && Chain(check, r.blobs) && TotalLength(r.blobs) <= size && |r.blobs| <= n
      && (r.ok ==> |r.blobs| == n && TotalLength(r.blobs) == size)
    decreases n - |done|
  {
    hide TotalLength, Chain;
    if |done| < n {
      var frame := p(b, size - TotalLength(done));
      if frame.Some? {
        var ((hash, data), rest) := frame.value;
        if check(done, hash, data) {
          TotalStep(done, data);
          ChainStep(check, done, data);
          ReceiveWithSound(p, check, rest, n, size, done + [data]);
        }
      }
    }
  }

  /** Whatever arrives, the accepted blobs form a chain from the root and never exceed the offered size; a set
      accepted in full is exactly the one the root commits to, of exactly the offered size. */
  lemma ReceiveSound(b: Bytes, o: Offer)
    requires o.nblobs > 0
    ensures var r := Receive(b, o);
      && Chain(Check(o), r.blobs) && TotalLength(r.blobs) <= o.size && |r.blobs| <= o.nblobs
      && (r.ok ==> WholeSet(o, r.blobs))
  {
    FramesBounded();
    assert Hashes(Check(o));
    ReceiveWithSound(TakeFrame, Check(o), b, o.nblobs, o.size, []);
    if Receive(b, o).ok {
      ChainIsWholeSet(o, Receive(b, o).blobs);
    }
  }

  /** The chunk list that a received set is recorded with. */
  function RecordedChunks(blobs: seq<Bytes>): seq<Hash>
    requires blobs != []
  {
    match DecodeManifest(blobs[0]) case Some(m) => m.chunks case None => []
  }

  /** A set accepted in full: the root's own bytes, then every chunk it names, in order and of the right length. */
  ghost predicate WholeSet(o: Offer, blobs: seq<Bytes>) {
    && blobs != [] && |blobs| == o.nblobs && TotalLength(blobs) == o.size
    && ContentHash(blobs[0]) == o.root
    && |RecordedChunks(blobs)| == |blobs| - 1
    && (forall i :: 1 <= i < |blobs| ==> ContentHash(blobs[i]) == RecordedChunks(blobs)[i - 1])
    && (forall i, m :: 1 <= i < |blobs| && DecodeManifest(blobs[0]) == Some(m) ==> |blobs[i]| == m.ChunkLen(i - 1))
    && (forall i :: 0 <= i < |blobs| ==> 0 < |blobs[i]| <= MAX_BLOB_SIZE)
  }

  lemma ChainIsWholeSet(o: Offer, blobs: seq<Bytes>)
    requires Chain(Check(o), blobs) && |blobs| == o.nblobs > 0 && TotalLength(blobs) == o.size
    ensures WholeSet(o, blobs)
  {
    assert Acceptable(o, blobs[..0], ContentHash(blobs[0]), blobs[0]);
    forall i | 1 <= i < |blobs|
      ensures DecodeManifest(blobs[0]).Some?
      ensures ContentHash(blobs[i]) == RecordedChunks(blobs)[i - 1]
      ensures |blobs[i]| == DecodeManifest(blobs[0]).value.ChunkLen(i - 1)
    {
      assert Acceptable(o, blobs[..i], ContentHash(blobs[i]), blobs[i]);
      assert blobs[..i][0] == blobs[0];
    }
  }

  /** The whole set is also accepted blob by blob. */
  lemma WholeSetIsChain(o: Offer, blobs: seq<Bytes>)
    requires WholeSet(o, blobs)
    ensures Chain(Check(o), blobs)
  {
    forall i | 0 <= i < |blobs| ensures Acceptable(o, blobs[..i], ContentHash(blobs[i]), blobs[i]) {
      if i > 0 {
        assert blobs[..i][0] == blobs[0];
        assert DecodeManifest(blobs[0]).Some?;
      }
    }
  }

  // ---------------------------------------------------------------- sending

  function FrameBytes(data: Bytes): Bytes {
    RequestBytes(ContentHash(data)) + BlobBytes(data)
  }

  function FrameParts(blobs: seq<Bytes>): (r: seq<Bytes>)
    ensures |r| == |blobs| && forall i :: 0 <= i < |r| ==> r[i] == FrameBytes(blobs[i])
  {
    seq(|blobs|, i requires 0 <= i < |blobs| => FrameBytes(blobs[i]))
  }

  function Frames(blobs: seq<Bytes>): Bytes {
    Concat(FrameParts(blobs))
  }

  lemma FrameRoundTrip(data: Bytes, max: nat, rest: Bytes)
    requires 0 < |data| <= max && |data| <= MAX_BLOB_SIZE && 0 < |ContentHash(data)| <= MAX_HASH_LEN
    ensures TakeFrame(FrameBytes(data) + rest, max) == Some(((ContentHash(data), data), rest))
    ensures |FrameBytes(data)| <= MAX_HASH_LEN + 2 * MAX_VARINT_LEN + |data|
  {
    assert FrameBytes(data) + rest == RequestBytes(ContentHash(data)) + (BlobBytes(data) + rest);
    RequestRoundTrip(ContentHash(data), BlobBytes(data) + rest);
    BlobRoundTrip(data, max, rest);
  }

  ghost predicate Framable(blobs: seq<Bytes>) {
    forall b :: b in blobs ==> 0 < |ContentHash(b)| <= MAX_HASH_LEN
  }

  /** The framing allowance: what the receiver's read limit adds to the offered size. */
  function Allowance(nblobs: nat): nat {
    nblobs * (MAX_HASH_LEN + 2 * MAX_VARINT_LEN)
  }

  lemma {:induction false} PartsLength(parts: seq<Bytes>, blobs: seq<Bytes>, extra: nat)
    requires |parts| == |blobs| && forall i :: 0 <= i < |parts| ==> |parts[i]| <= extra + |blobs[i]|
    ensures |Concat(parts)| <= TotalFront(blobs) + |parts| * extra
    decreases |parts|
  {
    if parts != [] {
      PartsLength(parts[1..], blobs[1..], extra);
      assert |parts| * extra == |parts[1..]| * extra + extra;
    }
  }

  lemma FramesLength(blobs: seq<Bytes>)
    requires Framable(blobs) && forall i :: 0 <= i < |blobs| ==> 0 < |blobs[i]| <= MAX_BLOB_SIZE
    ensures |Frames(blobs)| <= TotalFront(blobs) + Allowance(|blobs|)
  {
    forall i | 0 <= i < |blobs| ensures |FrameParts(blobs)[i]| <= MAX_HASH_LEN + 2 * MAX_VARINT_LEN + |blobs[i]| {
      assert blobs[i] in blobs;
      FrameRoundTrip(blobs[i], |blobs[i]|, []);
    }
    PartsLength(FrameParts(blobs), blobs, MAX_HASH_LEN + 2 * MAX_VARINT_LEN);
  }

  /** The same total, summed from the front. */
  function TotalFront(blobs: seq<Bytes>): nat {
    if blobs == [] then 0 else |blobs[0]| + TotalFront(blobs[1..])
  }

  lemma {:induction false} TotalsAgree(done: seq<Bytes>, todo: seq<Bytes>)
    ensures TotalLength(done + todo) == TotalLength(done) + TotalFront(todo)
    decreases |todo|
  {
    if todo == [] {
      assert done + todo == done;
    } else {
      TotalStep(done, todo[0]);
      TotalsAgree(done + [todo[0]], todo[1..]);
      assert done + [todo[0]] + todo[1..] == done + todo;
    }
  }

  /** `p` reads `part` as the frame of `d`, whatever follows and whenever there is room for it. */
  ghost predicate Carries(p: FrameReader, part: Bytes, d: Bytes) {
    forall max: nat, rest: Bytes :: |d| <= max ==> p(part + rest, max) == Some(((ContentHash(d), d), rest))
  }

  lemma CarriesAt(p: FrameReader, part: Bytes, d: Bytes, max: nat, rest: Bytes)
    requires Carries(p, part, d) && |d| <= max
    ensures p(part + rest, max) == Some(((ContentHash(d), d), rest))
  {
  }

  lemma ReceiveDone(p: FrameReader, check: BlobCheck, b: Bytes, size: nat, done: seq<Bytes>)
    requires TotalLength(done) == size
    ensures ReceiveWith(p, check, b, |done|, size, done) == Received(done, true)
  {
  }

  /** One more blob accepted. */
  lemma ReceiveOne(p: FrameReader, check: BlobCheck, b: Bytes, n: nat, size: nat, done: seq<Bytes>, d: Bytes,
                   more: Bytes)
    requires |done| < n && TotalLength(done) <= size
    requires p(b, size - TotalLength(done)) == Some(((ContentHash(d), d), more)) && check(done, ContentHash(d), d)
    ensures ReceiveWith(p, check, b, n, size, done) == ReceiveWith(p, check, more, n, size, done + [d])
  {
    hide TotalLength;
  }

  /** The next blob of a chain passes the check and fits what is left. */
  lemma ChainAt(check: BlobCheck, done: seq<Bytes>, todo: seq<Bytes>)
    requires Chain(check, done + todo) && todo != []
    ensures check(done, ContentHash(todo[0]), todo[0]) && TotalLength(done) + |todo[0]| <= TotalLength(done + todo)
  {
    hide TotalLength;
    var all := done + todo;
    assert all[|done|] == todo[0] && all[..|done|] == done;
    TotalsAgree(done, todo);
  }

  lemma {:induction false} ReceiveOfParts(p: FrameReader, check: BlobCheck, size: nat, done: seq<Bytes>,
                                          todo: seq<Bytes>, parts: seq<Bytes>, rest: Bytes)
    requires Chain(check, done + todo) && TotalLength(done + todo) == size
    requires |parts| == |todo| && forall i :: 0 <= i < |parts| ==> Carries(p, parts[i], todo[i])
    ensures ReceiveWith(p, check, Concat(parts) + rest, |done + todo|, size, done) == Received(done + todo, true)
    decreases |todo|
  {
    hide TotalLength, Chain, ReceiveWith, Carries;
    if todo == [] {
      assert done + todo == done;
      ReceiveDone(p, check, Concat(parts) + rest, size, done);
    } else {
      var d, more := todo[0], Concat(parts[1..]) + rest;
      ChainAt(check, done, todo);
      CarriesAt(p, parts[0], d, size - TotalLength(done), more);
      assert Concat(parts) + rest == parts[0] + more;
      ReceiveOne(p, check, Concat(parts) + rest, |done + todo|, size, done, d, more);
      assert done + [d] + todo[1..] == done + todo;
      assert forall i :: 0 <= i < |parts[1..]| ==> Carries(p, parts[1..][i], todo[1..][i]);
      ReceiveOfParts(p, check, size, done + [d], todo[1..], parts[1..], rest);
    }
  }

  lemma FrameCarries(d: Bytes)
    requires 0 < |d| <= MAX_BLOB_SIZE && 0 < |ContentHash(d)| <= MAX_HASH_LEN
    ensures Carries(TakeFrame, FrameBytes(d), d)
  {
    forall max: nat, rest: Bytes | |d| <= max {
      FrameRoundTrip(d, max, rest);
    }
  }

  /** What is left of the stream once the read limit is applied. */
  function Limited(b: Bytes, limit: nat): Bytes {
    if |b| <= limit then b else b[..limit]
  }

  lemma FramesCarry(blobs: seq<Bytes>)
    requires Framable(blobs) && forall i :: 0 <= i < |blobs| ==> 0 < |blobs[i]| <= MAX_BLOB_SIZE
    ensures forall i :: 0 <= i < |blobs| ==> Carries(TakeFrame, FrameParts(blobs)[i], blobs[i])
  {
    forall i | 0 <= i < |blobs| ensures Carries(TakeFrame, FrameParts(blobs)[i], blobs[i]) {
      assert blobs[i] in blobs;
      FrameCarries(blobs[i]);
    }
  }

  lemma FramesReceived(o: Offer, blobs: seq<Bytes>, tail: Bytes)
    requires WholeSet(o, blobs) && Framable(blobs)
    ensures Receive(Frames(blobs) + tail, o) == Received(blobs, true)
  {
    hide ReceiveWith, TakeFrame, Acceptable, Check, Chain, Framable, FrameParts, TotalLength, RecordedChunks, Carries;
    WholeSetIsChain(o, blobs);
    FramesCarry(blobs);
    assert [] + blobs == blobs;
    ReceiveOfParts(TakeFrame, Check(o), o.size, [], blobs, FrameParts(blobs), tail);
  }

  lemma FramesFit(o: Offer, blobs: seq<Bytes>)
    requires WholeSet(o, blobs) && Framable(blobs)
    ensures |Frames(blobs)| <= o.size + Allowance(o.nblobs)
  {
    FramesLength(blobs);
    TotalsAgree([], blobs);
    assert [] + blobs == blobs;
  }

  /** An honest sender's whole set is accepted: the framing allowance never cuts it short. */
  lemma HonestPushAccepted(o: Offer, blobs: seq<Bytes>, rest: Bytes)
    requires WholeSet(o, blobs) && Framable(blobs)
    ensures Receive(Limited(Frames(blobs) + rest, o.size + Allowance(o.nblobs)), o) == Received(blobs, true)
  {
    hide Receive, WholeSet, Framable, Frames, Limited;
    FramesFit(o, blobs);
    var tail := LimitedKeeps(Frames(blobs), rest, o.size + Allowance(o.nblobs));
    FramesReceived(o, blobs, tail);
  }

  lemma LimitedKeeps(a: Bytes, rest: Bytes, limit: nat) returns (tail: Bytes)
    requires |a| <= limit
    ensures Limited(a + rest, limit) == a + tail
  {
    var seen := Limited(a + rest, limit);
    tail := seen[|a|..];
    assert seen[..|a|] == a;
  }
}
