/** The index over one whole transfer: blobs claimed and written one by one, then recorded or rolled back
    (internal/node/contentnet.go, internal/node/replicate.go). */
module Transfers {
  import opened Bytes
  import opened Content
  import opened IndexModel
  import opened IndexInvariant
  import opened Chunking

  /** Claim a blob, then write it. */
  function PutStep(s: Index, d: Bytes): Index {
    AddClaim(s, ContentHash(d)).(disk := Stored(s.disk, d))
  }

  function AfterPuts(s: Index, ds: seq<Bytes>): Index {
    if ds == [] then s else PutStep(AfterPuts(s, ds[..|ds| - 1]), ds[|ds| - 1])
  }

  /** What is left when the transfer is abandoned after `ds`. */
  function Rollback(s: Index, ds: seq<Bytes>): Index {
    ReleaseClaims(AfterPuts(s, ds), HashesOf(ds), true)
  }

  lemma AfterPutsStep(s: Index, ds: seq<Bytes>, d: Bytes)
    ensures AfterPuts(s, ds + [d]) == PutStep(AfterPuts(s, ds), d)
    ensures HashesOf(ds + [d]) == HashesOf(ds) + [ContentHash(d)]
  {
    assert (ds + [d])[..|ds|] == ds;
  }

  /** `t` is `s` with each of `hs` claimed once per entry, and nothing off the disk. */
  ghost predicate PutsAdd(s: Index, hs: seq<Hash>, t: Index) {
    && t.sets == s.sets && t.blobs == s.blobs && t.reserved == s.reserved
    && (forall h :: Claims(t, h) == Claims(s, h) + multiset(hs)[h])
    && (forall h :: h in t.pending <==> h in s.pending || h in hs)
    && (forall h :: h in t.disk ==> h in s.disk || h in hs)
    && (forall h :: h in s.disk ==> h in t.disk && t.disk[h] == s.disk[h])
  }

  lemma PutAdds(s: Index, hs: seq<Hash>, t: Index, d: Bytes)
    requires PutsAdd(s, hs, t)
    ensures PutsAdd(s, hs + [ContentHash(d)], PutStep(t, d))
  {
  }

  lemma {:induction false} AfterPutsFacts(s: Index, ds: seq<Bytes>)
    ensures PutsAdd(s, HashesOf(ds), AfterPuts(s, ds))
    decreases |ds|
  {
    hide PutsAdd;
    if ds == [] {
      NoPuts(s);
      assert HashesOf(ds) == [];
    } else {
      var init, d := ds[..|ds| - 1], ds[|ds| - 1];
      AfterPutsFacts(s, init);
      AfterPutsStep(s, init, d);
      assert ds == init + [d];
      PutAdds(s, HashesOf(init), AfterPuts(s, init), d);
    }
  }

  lemma NoPuts(s: Index)
    ensures PutsAdd(s, [], s)
  {
  }

  ghost predicate Wanted(s: Index, h: Hash) {
    Claims(s, h) > 0 || Refs(s, h) != {}
  }

  lemma RollbackClaims(s: Index, ds: seq<Bytes>)
    ensures var t := AfterPuts(s, ds);
      forall h :: LeftOver(t, HashesOf(ds), h) == Claims(s, h) && Refs(t, h) == Refs(s, h)
  {
    AfterPutsFacts(s, ds);
  }

  lemma RollbackPending(s: Index, ds: seq<Bytes>)
    requires Tidy(s)
    ensures Rollback(s, ds).pending == s.pending
  {
    AfterPutsFacts(s, ds);
    RollbackClaims(s, ds);
    SamePending(AfterPuts(s, ds), HashesOf(ds), s);
  }

  lemma SamePending(t: Index, hs: seq<Hash>, s: Index)
    requires Tidy(s) && forall h :: LeftOver(t, hs, h) == Claims(s, h)
    requires forall h :: h in t.pending <==> h in s.pending || h in hs
    requires forall h :: Claims(t, h) == Claims(s, h) + multiset(hs)[h]
    ensures ReleaseClaims(t, hs, true).pending == s.pending
  {
    var p := ReleaseClaims(t, hs, true).pending;
    assert forall h :: h in hs ==> (LeftOver(t, hs, h) > 0 <==> h in s.pending);
    assert p.Keys == s.pending.Keys;
    assert forall h :: h in p ==> p[h] == s.pending[h];
  }

  lemma RollbackDisk(s: Index, ds: seq<Bytes>)
    requires NoOrphans(s)
    ensures var t := Rollback(s, ds);
      && (forall h :: h in s.disk ==> h in t.disk && t.disk[h] == s.disk[h])
      && (forall h :: h in t.disk && h !in s.disk ==> Wanted(s, h) && h in HashesOf(ds))
  {
    AfterPutsFacts(s, ds);
    RollbackClaims(s, ds);
  }

  /** An abandoned transfer leaves no trace: no index entry, no claim, no reference, no reservation, no lost blob;
      a blob it leaves behind is one that somebody else wants. */
  lemma RollbackRestores(s: Index, ds: seq<Bytes>)
    requires Tidy(s) && NoOrphans(s)
    ensures var t := Rollback(s, ds);
      && t.(disk := s.disk) == s
      && (forall h :: h in s.disk ==> h in t.disk && t.disk[h] == s.disk[h])
      && (forall h :: h in t.disk && h !in s.disk ==> Wanted(s, h) && h in HashesOf(ds))
  {
    AfterPutsFacts(s, ds);
    RollbackPending(s, ds);
    RollbackDisk(s, ds);
  }

  // ---------------------------------------------------------------- what a commit keeps on disk

  lemma EvictKeepsClaimed(s: Index, v: Hash, h: Hash)
    requires Claims(s, h) > 0 && h in s.disk
    ensures var t := Evict(s, v); h in t.disk && t.disk[h] == s.disk[h] && Claims(t, h) == Claims(s, h)
  {
  }

  /** An eviction pass never takes a blob that some writer is claiming. */
  lemma {:induction false} PassKeepsClaimed(s: Index, victims: seq<Hash>, h: Hash)
    requires Claims(s, h) > 0 && h in s.disk
    ensures var t := EvictAll(s, victims); h in t.disk && t.disk[h] == s.disk[h] && Claims(t, h) == Claims(s, h)
  {
    if victims != [] {
      var n := |victims| - 1;
      PassKeepsClaimed(s, victims[..n], h);
      EvictKeepsClaimed(EvictAll(s, victims[..n]), victims[n], h);
    }
  }

  /** All of `ds` can be stored, and no blob already on disk, nor another of `ds`, collides with any of them. */
  ghost predicate Storable(disk: map<Hash, Bytes>, ds: seq<Bytes>) {
    && (forall d :: d in ds ==> |d| <= MAX_BLOB_SIZE)
    && (forall d :: d in ds && ContentHash(d) in disk ==> disk[ContentHash(d)] == d)
    && (forall c, d :: c in ds && d in ds && ContentHash(c) == ContentHash(d) ==> c == d)
  }

  lemma {:induction false} PutsOnDisk(s: Index, ds: seq<Bytes>, d: Bytes)
    requires Storable(s.disk, ds) && d in ds
    ensures var t := AfterPuts(s, ds);
      ContentHash(d) in t.disk && t.disk[ContentHash(d)] == d && Claims(t, ContentHash(d)) > 0
    decreases |ds|
  {
    hide AfterPuts, HashesOf;
    var init, last := ds[..|ds| - 1], ds[|ds| - 1];
    assert ds == init + [last];
    assert last in ds;
    AfterPutsStep(s, init, last);
    AfterPutsFacts(s, init);
    if d in init {
      PutsOnDisk(s, init, d);
    } else {
      FreshHash(init, d);
    }
  }

  lemma FreshHash(init: seq<Bytes>, d: Bytes)
    requires d !in init && forall c :: c in init && ContentHash(c) == ContentHash(d) ==> c == d
    ensures ContentHash(d) !in HashesOf(init)
  {
    forall i | 0 <= i < |init| ensures HashesOf(init)[i] != ContentHash(d) {
      assert init[i] in init;
    }
  }

  /** Every blob of a set that commits is on disk afterwards, whatever the pass evicted. */
  lemma CommittedOnDisk(s: Index, root: Hash, size: nat, chunks: seq<Hash>, from: string, victims: seq<Hash>,
                        now: int, ds: seq<Bytes>, d: Bytes)
    requires Storable(s.disk, ds) && d in ds
    ensures var t := Commit(AfterPuts(s, ds), root, size, chunks, from, victims, true, HashesOf(ds), now);
      ContentHash(d) in t.disk && t.disk[ContentHash(d)] == d
  {
    var h, s0 := ContentHash(d), Unreserve(AfterPuts(s, ds), size);
    PutsOnDisk(s, ds, d);
    PassKeepsClaimed(s0, victims, h);
  }

  /** Every blob of a published set is on disk afterwards. */
  lemma OwnedOnDisk(s: Index, root: Hash, size: nat, chunks: seq<Hash>, now: int, ds: seq<Bytes>, d: Bytes)
    requires Storable(s.disk, ds) && d in ds
    ensures var t := MarkOwned(AfterPuts(s, ds), root, size, chunks, HashesOf(ds), now);
      ContentHash(d) in t.disk && t.disk[ContentHash(d)] == d
  {
    PutsOnDisk(s, ds, d);
  }

  /** A set that fits now also fits later, if nothing else happens: protection only wears off. */
  lemma FitsLater(sets: map<Hash, Meta>, reserved: nat, q: Request, later: int)
    requires q.now <= later && Fits(sets, reserved, q)
    ensures Fits(sets, reserved, q.(now := later))
  {
    var f := (r: Hash) => if r in sets && Evictable(sets[r], q.ttl, later) then 0 else HostedSize(sets, r);
    var g := (r: Hash) => if r in sets && Evictable(sets[r], q.ttl, q.now) then 0 else HostedSize(sets, r);
    SumBelow(sets.Keys, f, g);
  }
}
