/** What start-up makes of an index file and a store, and when runs may begin there
    (internal/content/contentindex.go). */
module Startup {
  import opened Bytes
  import opened Content
  import opened Sums
  import opened IndexModel
  import opened IndexInvariant
  import opened Chunking
  import ContentRuns

  /** Larger blobs are not looked into for a manifest. */
  const MANIFEST_PROBE_LIMIT: nat := 1048576

  /** The manifest that a blob on disk holds, when all its chunks are on disk too. */
  function CompleteManifest(disk: map<Hash, Bytes>, h: Hash): (r: Option<ChunkManifest>)
    requires h in disk
    ensures r.Some? ==> DecodeManifest(disk[h]) == r && forall c :: c in r.value.chunks ==> c in disk
  {
    if |disk[h]| > MANIFEST_PROBE_LIMIT then None
    else
      match DecodeManifest(disk[h])
      case None => None
      case Some(m) => if forall c :: c in m.chunks ==> c in disk then Some(m) else None
  }

  /** The entry under which an unindexed blob is adopted: with its chunks when it is a complete manifest, alone
      otherwise. */
  function AdoptedMeta(disk: map<Hash, Bytes>, h: Hash, now: int): (m: Meta)
    requires h in disk
    ensures Names(h, m.chunks) <= disk.Keys && !m.owned
  {
    match CompleteManifest(disk, h)
    case None => Meta(false, |disk[h]|, [], now, now, "")
    case Some(m) => ManifestPositive(m); Meta(false, |disk[h]| + m.totalSize, m.chunks, now, now, "")
  }

  ghost predicate Kept(disk: map<Hash, Bytes>, entries: map<Hash, Meta>, r: Hash) {
    r in entries && r in disk
  }

  /** Entries of the file survive with their root; everything else that is indexed has been adopted. */
  ghost predicate EntriesKept(disk: map<Hash, Bytes>, entries: map<Hash, Meta>, now: int, s: Index) {
    && (forall r :: Kept(disk, entries, r) ==> r in s.sets && s.sets[r] == entries[r])
    && (forall r :: r in s.sets ==> r in disk && (Kept(disk, entries, r) || s.sets[r] == AdoptedMeta(disk, r, now)))
  }

  /** Only a blob that no entry names is adopted, and alone only if no other set names it. */
  ghost predicate AdoptedLast(disk: map<Hash, Bytes>, entries: map<Hash, Meta>, s: Index) {
    && (forall r, e :: r in s.sets && !Kept(disk, entries, r) && Kept(disk, entries, e) ==>
      r !in Names(e, entries[e].chunks))
    && (forall r :: r in s.sets && r in disk && !Kept(disk, entries, r) && CompleteManifest(disk, r).None? ==>
      Refs(s, r) == {r})
  }

  /** The index after start-up. */
  ghost predicate Loaded(disk: map<Hash, Bytes>, entries: map<Hash, Meta>, now: int, s: Index) {
    && s.disk == disk && s.pending == map[] && s.reserved == 0 && RefsExact(s) && NoOrphans(s)
    && EntriesKept(disk, entries, now, s) && AdoptedLast(disk, entries, s)
  }

  /** So far only manifests have been adopted. */
  ghost predicate ManifestsOnly(disk: map<Hash, Bytes>, entries: map<Hash, Meta>, s: Index) {
    forall r :: r in s.sets && r in disk && !Kept(disk, entries, r) ==> CompleteManifest(disk, r).Some?
  }

  /** `t` is `s` with `h` adopted. */
  ghost predicate Adopts(disk: map<Hash, Bytes>, now: int, s: Index, h: Hash, t: Index)
    requires h in disk
  {
    var m := AdoptedMeta(disk, h, now);
    && h !in s.sets && t.sets == s.sets[h := m]
    && forall k :: Refs(t, k) == Refs(s, k) + if k in Names(h, m.chunks) then {h} else {}
  }

  lemma AdoptKeepsEntries(disk: map<Hash, Bytes>, entries: map<Hash, Meta>, now: int, s: Index, h: Hash, t: Index)
    requires h in disk && Adopts(disk, now, s, h, t) && EntriesKept(disk, entries, now, s)
    ensures EntriesKept(disk, entries, now, t)
  {
    hide AdoptedMeta;
  }

  /** Adoption comes last: an unnamed blob, and alone only once no manifest is left. */
  lemma AdoptKeepsLast(disk: map<Hash, Bytes>, entries: map<Hash, Meta>, now: int, s: Index, h: Hash, t: Index)
    requires h in disk && Adopts(disk, now, s, h, t) && EntriesKept(disk, entries, now, s)
      && AdoptedLast(disk, entries, s)
    requires RefsExact(s) && Refs(s, h) == {}
    requires CompleteManifest(disk, h).Some? ==> ManifestsOnly(disk, entries, s)
    ensures AdoptedLast(disk, entries, t)
  {
    forall e | Kept(disk, entries, e) ensures h !in Names(e, entries[e].chunks) {
      assert Names'(s, e, h) ==> e in Refs(s, h);
    }
    if CompleteManifest(disk, h).None? {
      assert AdoptedMeta(disk, h, now).chunks == [];
    }
  }

  /** What is adopted is a manifest of up to 1 MiB whose chunks are all on disk, with these and their total size, or a
      blob alone. */
  lemma AdoptedExactly(disk: map<Hash, Bytes>, entries: map<Hash, Meta>, now: int, s: Index, r: Hash)
    requires Loaded(disk, entries, now, s) && r in s.sets && !Kept(disk, entries, r)
    ensures r in disk && !s.sets[r].owned
    ensures match DecodeManifest(disk[r])
            case None => s.sets[r].chunks == [] && s.sets[r].size == |disk[r]|
            case Some(m) =>
              if |disk[r]| <= 1048576 && forall c :: c in m.chunks ==> c in disk
              then s.sets[r].chunks == m.chunks && s.sets[r].size == |disk[r]| + m.totalSize
              else s.sets[r].chunks == [] && s.sets[r].size == |disk[r]|
  {
    hide RefsExact, NoOrphans, AdoptedLast;
  }

  lemma Accounted(disk: map<Hash, Bytes>, entries: map<Hash, Meta>, now: int, s: Index, h: Hash)
    requires Loaded(disk, entries, now, s) && h in disk
    ensures exists r :: Names'(s, r, h)
  {
    hide EntriesKept, AdoptedLast;
    assert Claims(s, h) == 0;
    var r :| r in Refs(s, h);
    assert Names'(s, r, h);
  }

  /** Every manifest of up to 1 MiB whose chunks are all on disk and that no other set names is indexed with its own
      chunks, unless an entry says otherwise. */
  lemma ManifestsAdopted(disk: map<Hash, Bytes>, entries: map<Hash, Meta>, now: int, s: Index, h: Hash,
                         m: ChunkManifest)
    requires Loaded(disk, entries, now, s) && h in disk && !Kept(disk, entries, h)
    requires |disk[h]| <= 1048576 && DecodeManifest(disk[h]) == Some(m) && forall c :: c in m.chunks ==> c in disk
    requires forall r :: r in s.sets && r != h ==> h !in Names(r, s.sets[r].chunks)
    ensures h in s.sets && s.sets[h].chunks == m.chunks && s.sets[h].size == |disk[h]| + m.totalSize && !s.sets[h].owned
  {
    hide Loaded, Kept, Names;
    Accounted(disk, entries, now, s, h);
    var r :| Names'(s, r, h);
    AdoptedExactly(disk, entries, now, s, h);
  }

  // ---------------------------------------------------------------- a start for runs

  /** The set declares at least the bytes of its blobs. */
  ghost predicate Covered(s: Index, r: Hash)
    requires r in s.sets
  {
    Sum(Names(r, s.sets[r].chunks), Weight) <= s.sets[r].size
  }

  lemma AloneIsCovered(disk: map<Hash, Bytes>, entries: map<Hash, Meta>, now: int, s: Index, r: Hash)
    requires Loaded(disk, entries, now, s) && Faithful(s) && r in s.sets && !Kept(disk, entries, r)
    requires CompleteManifest(disk, r).None?
    ensures Covered(s, r)
  {
    hide RefsExact, NoOrphans, AdoptedLast, CompleteManifest;
    assert Names(r, []) == {r};
    ContentRuns.SumOne(r);
  }

  lemma NobodyAtWork(disk: map<Hash, Bytes>, entries: map<Hash, Meta>, now: int, s: Index)
    requires Loaded(disk, entries, now, s)
    ensures ContentRuns.Inv(ContentRuns.System(s, map[]))
       <==> Faithful(s) && forall r :: r in s.sets ==> Covered(s, r)
  {
    hide RefsExact, NoOrphans, EntriesKept, AdoptedLast, Names;
    var sys := ContentRuns.System(s, map[]);
    assert ContentRuns.Counted(sys) && ContentRuns.StoredOnDisk(sys);
    assert Measured(s) <==> forall r :: r in s.sets ==> Covered(s, r);
  }

  /** Runs may begin at a loaded index exactly when the blobs are what their names say and the sizes that start-up
      takes on trust, those in the file and those of adopted manifests, cover their blobs. */
  lemma LoadedStart(disk: map<Hash, Bytes>, entries: map<Hash, Meta>, now: int, s: Index)
    requires Loaded(disk, entries, now, s)
    ensures ContentRuns.Inv(ContentRuns.System(s, map[])) <==>
      Faithful(s) && forall r :: r in s.sets && (Kept(disk, entries, r) || CompleteManifest(disk, r).Some?) ==>
        Covered(s, r)
  {
    hide ContentRuns.Inv, RefsExact, NoOrphans, AdoptedLast, Covered, CompleteManifest, Faithful;
    NobodyAtWork(disk, entries, now, s);
    if Faithful(s) {
      forall r | r in s.sets && !Kept(disk, entries, r) && CompleteManifest(disk, r).None? ensures Covered(s, r) {
        AloneIsCovered(disk, entries, now, s, r);
      }
    }
  }

  lemma {:induction false} ListBytes(disk: map<Hash, Bytes>, hs: seq<Hash>)
    requires forall h :: h in hs ==> h in disk && disk[h] == BlobOf(h)
    ensures |ChunkBytes(disk, hs)| == WeightFront(hs)
    decreases |hs|
  {
    if hs != [] {
      ListBytes(disk, hs[1..]);
    }
  }

  function WeightFront(hs: seq<Hash>): nat {
    if hs == [] then 0 else Weight(hs[0]) + WeightFront(hs[1..])
  }

  lemma {:induction false} SetBelowFront(hs: seq<Hash>)
    ensures Sum(ContentRuns.Elems(hs), Weight) <= WeightFront(hs)
    decreases |hs|
  {
    if hs != [] {
      SetBelowFront(hs[1..]);
      assert ContentRuns.Elems(hs) == {hs[0]} + ContentRuns.Elems(hs[1..]);
      SumUnion({hs[0]}, ContentRuns.Elems(hs[1..]), Weight);
      ContentRuns.SumOne(hs[0]);
    }
  }

  lemma NamesWeight(disk: map<Hash, Bytes>, r: Hash, m: ChunkManifest)
    requires ValidManifest(m) && Intact(disk, m) && forall h :: h in m.chunks ==> h in disk && disk[h] == BlobOf(h)
    ensures Sum(Names(r, m.chunks), Weight) <= Weight(r) + m.totalSize
  {
    IntactLength(disk, m);
    ListBytes(disk, m.chunks);
    SetBelowFront(m.chunks);
    assert Names(r, m.chunks) == {r} + ContentRuns.Elems(m.chunks);
    SumUnion({r}, ContentRuns.Elems(m.chunks), Weight);
    ContentRuns.SumOne(r);
  }

  /** An adopted manifest whose chunks have the lengths it declares is covered. */
  lemma IntactIsCovered(disk: map<Hash, Bytes>, entries: map<Hash, Meta>, now: int, s: Index, r: Hash)
    requires Loaded(disk, entries, now, s) && Faithful(s) && r in s.sets && !Kept(disk, entries, r)
    requires CompleteManifest(disk, r).Some? && Intact(disk, CompleteManifest(disk, r).value)
    ensures Covered(s, r)
  {
    hide RefsExact, NoOrphans, AdoptedLast, Intact;
    NamesWeight(disk, r, CompleteManifest(disk, r).value);
  }
}
