/** What every critical section keeps of the index and the store, whoever else is writing
    (internal/content/contentindex.go). */
module IndexInvariant {
  import opened Bytes
  import opened Content
  import opened Sums
  import opened IndexModel

  /** The one byte string in play under each hash: the hash is taken to be free of collisions on these. */
  const BlobOf: Hash -> Bytes

  function Weight(h: Hash): nat {
    |BlobOf(h)|
  }

  ghost predicate Names'(s: Index, root: Hash, h: Hash) {
    root in s.sets && h in Names(root, s.sets[root].chunks)
  }

  /** A reference stands for a set that names the blob, and the other way round. */
  ghost predicate RefsExact(s: Index) {
    forall h, r :: r in Refs(s, h) <==> Names'(s, r, h)
  }

  /** Every blob of an indexed set is on disk. (A set loaded from an old index file may lack some.) */
  ghost predicate Whole(s: Index, r: Hash) {
    r in s.sets && forall h :: h in Names(r, s.sets[r].chunks) ==> h in s.disk
  }

  /** Every blob on disk is claimed or indexed. */
  ghost predicate NoOrphans(s: Index) {
    forall h :: h in s.disk ==> Claims(s, h) > 0 || Refs(s, h) != {}
  }

  ghost predicate Faithful(s: Index) {
    forall h :: h in s.disk ==> s.disk[h] == BlobOf(h)
  }

  /** A set records at least the bytes of its blobs. */
  ghost predicate Measured(s: Index) {
    forall r :: r in s.sets ==> Sum(Names(r, s.sets[r].chunks), Weight) <= s.sets[r].size
  }

  ghost predicate IxInv(s: Index) {
    RefsExact(s) && NoOrphans(s) && Faithful(s) && Measured(s)
  }

  /** No claim count is kept at zero. */
  ghost predicate Tidy(s: Index) {
    forall h :: h in s.pending ==> s.pending[h] > 0
  }

  /** Nothing claimed or still named by a set leaves the disk, and what stays is unchanged. */
  ghost predicate KeepsWanted(s: Index, t: Index) {
    && (forall h :: h in s.disk && h !in t.disk ==> Claims(t, h) == 0 && Refs(t, h) == {})
    && (forall h :: h in s.disk && h in t.disk ==> t.disk[h] == s.disk[h])
  }

  // ---------------------------------------------------------------- claims

  lemma AddClaimKeeps(s: Index, h: Hash)
    requires IxInv(s)
    ensures IxInv(AddClaim(s, h)) && KeepsWanted(s, AddClaim(s, h))
    ensures forall k :: Claims(AddClaim(s, h), k) == Claims(s, k) + if k == h then 1 else 0
  {
    var t := AddClaim(s, h);
    assert forall k :: Refs(t, k) == Refs(s, k);
    assert forall r, k :: Names'(t, r, k) <==> Names'(s, r, k);
  }

  function PutBlob(s: Index, h: Hash): Index {
    s.(disk := if h in s.disk then s.disk else s.disk[h := BlobOf(h)])
  }

  lemma PutKeeps(s: Index, h: Hash)
    requires IxInv(s) && Claims(s, h) > 0
    ensures IxInv(PutBlob(s, h)) && KeepsWanted(s, PutBlob(s, h)) && h in PutBlob(s, h).disk
  {
    var t := PutBlob(s, h);
    assert forall k :: Refs(t, k) == Refs(s, k) && Claims(t, k) == Claims(s, k);
    assert forall r, k :: Names'(t, r, k) <==> Names'(s, r, k);
  }

  lemma ReleaseFacts(s: Index, hashes: seq<Hash>, discard: bool)
    ensures var t := ReleaseClaims(s, hashes, discard);
      && (forall k :: Claims(t, k) == LeftOver(s, hashes, k))
      && (forall k :: Refs(t, k) == Refs(s, k))
      && (forall r, k :: Names'(t, r, k) <==> Names'(s, r, k))
      && t.sets == s.sets
      && t.disk == if discard then s.disk - Unwanted(s, hashes) else s.disk
  {
    assert forall k :: k !in hashes ==> multiset(hashes)[k] == 0;
  }

  /** A rollback removes exactly the writer's blobs that nobody else claims and no set names. */
  lemma DiscardKeeps(s: Index, hashes: seq<Hash>)
    requires IxInv(s)
    ensures IxInv(ReleaseClaims(s, hashes, true)) && KeepsWanted(s, ReleaseClaims(s, hashes, true))
  {
    ReleaseFacts(s, hashes, true);
    var t := ReleaseClaims(s, hashes, true);
    forall h | h in t.disk ensures Claims(t, h) > 0 || Refs(t, h) != {} {
      if h !in hashes {
        assert multiset(hashes)[h] == 0;
      }
    }
  }

  /** Dropping claims without deleting is safe once every claimed blob is referenced. */
  lemma HandOverKeeps(s: Index, hashes: seq<Hash>)
    requires IxInv(s) && forall h :: h in hashes ==> Refs(s, h) != {}
    ensures IxInv(ReleaseClaims(s, hashes, false)) && KeepsWanted(s, ReleaseClaims(s, hashes, false))
  {
    ReleaseFacts(s, hashes, false);
    var t := ReleaseClaims(s, hashes, false);
    forall h | h in t.disk ensures Claims(t, h) > 0 || Refs(t, h) != {} {
      if h !in hashes {
        assert multiset(hashes)[h] == 0;
      }
    }
  }

  /** Exactly then: what it leaves behind unspoken for is what a discard would have deleted. */
  lemma HandOverExactly(s: Index, hashes: seq<Hash>)
    requires NoOrphans(s)
    ensures NoOrphans(ReleaseClaims(s, hashes, false)) <==> Unwanted(s, hashes) !! s.disk.Keys
  {
    ReleaseFacts(s, hashes, false);
    var t := ReleaseClaims(s, hashes, false);
    forall h | h in s.disk && h !in Unwanted(s, hashes) ensures Claims(t, h) > 0 || Refs(t, h) != {} {
      if h !in hashes {
        assert multiset(hashes)[h] == 0;
      }
    }
    forall h | h in Unwanted(s, hashes) && h in s.disk ensures h in t.disk && Claims(t, h) == 0 && Refs(t, h) == {} {
    }
  }

  // ---------------------------------------------------------------- eviction

  lemma EvictFacts(s: Index, root: Hash)
    requires root in s.sets
    ensures var t := Evict(s, root); var names := Names(root, s.sets[root].chunks);
      && t.sets == s.sets - {root} && t.pending == s.pending
      && (forall h :: Refs(t, h) == if h in names then Refs(s, h) - {root} else Refs(s, h))
      && (forall h :: h in t.disk <==> h in s.disk && !(h in names && Refs(s, h) - {root} == {} && Claims(s, h) == 0))
      && (forall h :: h in t.disk ==> t.disk[h] == s.disk[h])
      && (forall h :: Claims(t, h) == Claims(s, h))
  {
  }

  lemma EvictRefs(s: Index, root: Hash)
    requires root in s.sets && RefsExact(s)
    ensures forall h :: Refs(Evict(s, root), h) == Refs(s, h) - {root}
    ensures RefsExact(Evict(s, root))
  {
    EvictFacts(s, root);
    var t := Evict(s, root);
    forall h ensures Refs(t, h) == Refs(s, h) - {root} {
      if h !in Names(root, s.sets[root].chunks) {
        assert !Names'(s, root, h);
      }
    }
    forall h, r ensures r in Refs(t, h) <==> Names'(t, r, h) {
      assert r in Refs(s, h) <==> Names'(s, r, h);
    }
  }

  lemma EvictKeeps(s: Index, root: Hash)
    requires IxInv(s)
    ensures IxInv(Evict(s, root)) && KeepsWanted(s, Evict(s, root))
  {
    if root in s.sets {
      var t := Evict(s, root);
      EvictFacts(s, root);
      EvictRefs(s, root);
      forall h | h in t.disk ensures Claims(t, h) > 0 || Refs(t, h) != {} {
        if h !in Names(root, s.sets[root].chunks) {
          assert !Names'(s, root, h);
          assert root !in Refs(s, h);
        }
      }
    }
  }

  lemma {:induction false} EvictAllKeeps(s: Index, victims: seq<Hash>)
    requires IxInv(s)
    ensures IxInv(EvictAll(s, victims)) && KeepsWanted(s, EvictAll(s, victims))
    ensures forall h :: Claims(EvictAll(s, victims), h) == Claims(s, h)
    ensures forall h :: Refs(EvictAll(s, victims), h) <= Refs(s, h)
  {
    if victims != [] {
      var n := |victims| - 1;
      var mid, v := EvictAll(s, victims[..n]), victims[n];
      EvictAllKeeps(s, victims[..n]);
      EvictKeeps(mid, v);
      if v in mid.sets {
        EvictFacts(mid, v);
        EvictRefs(mid, v);
      }
    }
  }

  // ---------------------------------------------------------------- recording

  /** A set may be recorded when its blobs are on disk and its size covers them. */
  ghost predicate Recordable(s: Index, root: Hash, size: nat, chunks: seq<Hash>) {
    && (forall h :: h in Names(root, chunks) ==> h in s.disk)
    && Sum(Names(root, chunks), Weight) <= size
  }

  function Record(s: Index, root: Hash, m: Meta): Index {
    Reference(s.(sets := s.sets[root := m]), root, Names(root, m.chunks))
  }

  lemma RecordFacts(s: Index, root: Hash, m: Meta)
    ensures var t := Record(s, root, m);
      && t.sets == s.sets[root := m] && t.pending == s.pending && t.disk == s.disk && t.reserved == s.reserved
      && (forall h :: Refs(t, h) == if h in Names(root, m.chunks) then Refs(s, h) + {root} else Refs(s, h))
      && (forall h :: Claims(t, h) == Claims(s, h))
  {
  }

  /** Recording keeps the references exact precisely when no blob of an earlier chunk list is left out. */
  lemma RecordKeepsRefsExactly(s: Index, root: Hash, m: Meta)
    requires RefsExact(s)
    ensures RefsExact(Record(s, root, m))
       <==> (root in s.sets ==> Names(root, s.sets[root].chunks) <= Names(root, m.chunks))
  {
    RecordFacts(s, root, m);
    var t := Record(s, root, m);
    if root in s.sets ==> Names(root, s.sets[root].chunks) <= Names(root, m.chunks) {
      forall h, r ensures r in Refs(t, h) <==> Names'(t, r, h) {
        assert r in Refs(s, h) <==> Names'(s, r, h);
      }
    } else {
      var h :| h in Names(root, s.sets[root].chunks) && h !in Names(root, m.chunks);
      assert Names'(s, root, h);
      assert root in Refs(t, h) && !Names'(t, root, h);
    }
  }

  lemma RecordKeeps(s: Index, root: Hash, m: Meta)
    requires IxInv(s) && Recordable(s, root, m.size, m.chunks)
    requires root in s.sets ==> Names(root, s.sets[root].chunks) <= Names(root, m.chunks)
    ensures IxInv(Record(s, root, m)) && KeepsWanted(s, Record(s, root, m))
  {
    RecordFacts(s, root, m);
    RecordKeepsRefsExactly(s, root, m);
  }

  /** A set that was whole and is still indexed with the same blobs is still whole. */
  lemma WholeKept(s: Index, t: Index, r: Hash)
    requires Whole(s, r) && KeepsWanted(s, t) && RefsExact(t)
    requires r in t.sets && t.sets[r].chunks == s.sets[r].chunks
    ensures Whole(t, r)
  {
    forall h | h in Names(r, t.sets[r].chunks) ensures h in t.disk {
      assert Names'(t, r, h);
      assert r in Refs(t, h);
    }
  }

  lemma TouchMeasured(s: Index, root: Hash, now: int)
    requires Measured(s)
    ensures Measured(Touch(s, root, now))
  {
    hide Names;
  }

  lemma TouchKeeps(s: Index, root: Hash, now: int)
    requires IxInv(s)
    ensures IxInv(Touch(s, root, now)) && KeepsWanted(s, Touch(s, root, now))
  {
    hide Measured;
    TouchMeasured(s, root, now);
    var t := Touch(s, root, now);
    assert forall k :: Refs(t, k) == Refs(s, k) && Claims(t, k) == Claims(s, k);
    assert forall r, k :: Names'(t, r, k) <==> Names'(s, r, k);
  }
}
