/** The content index as the code keeps it: maps updated in place under one lock
    (internal/content/contentindex.go). Each method is one critical section. */
module ContentIndexCode {
  import opened Bytes
  import opened Content
  import opened IndexModel
  import opened IndexInvariant
  import opened Startup


  /** One writer's handle on the blobs it is assembling. */
  class BlobClaims {
    const ix: ContentIndex
    var hashes: seq<Hash>

    constructor (ix: ContentIndex)
      ensures this.ix == ix && hashes == []
    {
      this.ix, hashes := ix, [];
    }

    method Claim(hash: Hash)
      modifies this, ix
      ensures ix.State() == AddClaim(old(ix.State()), hash)
      ensures hashes == old(hashes) + [hash]
    {
      ix.pending := ix.pending[hash := (if hash in ix.pending then ix.pending[hash] else 0) + 1];
      hashes := hashes + [hash];
    }

    /** Afterwards the handle is empty, so a second Discard changes nothing. */
    method Discard()
      modifies this, ix, ix.store
      ensures ix.State() == ReleaseClaims(old(ix.State()), old(hashes), true)
      ensures hashes == []
    {
      ix.ReleaseClaimsLocked(this, true);
    }
  }

  class ContentIndex {
    const store: BlobStore
    var sets: map<Hash, Meta>
    var blobs: map<Hash, set<Hash>>
    var pending: map<Hash, nat>
    var reserved: nat

    constructor (store: BlobStore)
      ensures this.store == store && State() == Index(map[], map[], map[], 0, store.disk)
    {
      this.store := store;
      sets, blobs, pending, reserved := map[], map[], map[], 0;
    }

    ghost function State(): Index
      reads this, store
    {
      Index(sets, blobs, pending, reserved, store.disk)
    }

    method Has(root: Hash) returns (r: bool)
      ensures r == (root in sets)
    {
      r := root in sets;
    }

    // -------------------------------------------------------------- loading

    method RecordSet(root: Hash, m: Meta)
      modifies this`sets, this`blobs
      ensures State() == Record(old(State()), root, m)
    {
      sets := sets[root := m];
      ReferenceSet(root, m.chunks);
    }

    /** Keep the entries whose root blob is on disk and rebuild the reverse map. */
    method LoadEntries(entries: map<Hash, Meta>)
      requires sets == map[] && blobs == map[]
      modifies this`sets, this`blobs
      ensures sets == map r | r in entries && r in store.disk :: entries[r]
      ensures RefsExact(State())
      ensures store.disk == old(store.disk)
    {
      var todo := entries.Keys;
      while todo != {}
        invariant todo <= entries.Keys && store.disk == old(store.disk)
        invariant sets == map r | r in entries && r in store.disk && r !in todo :: entries[r]
        invariant RefsExact(State())
      {
        var root :| root in todo;
        ghost var before := State();
        todo := todo - {root};
        if root in store.disk {
          RecordSet(root, entries[root]);
          RecordKeepsRefsExactly(before, root, entries[root]);
        }
      }
    }

    /** The manifest that a blob on disk holds, if it is a complete one. */
    method ProbeManifest(h: Hash) returns (r: Option<ChunkManifest>)
      requires h in store.disk
      ensures r == CompleteManifest(store.disk, h)
    {
      if |store.disk[h]| > MANIFEST_PROBE_LIMIT {
        return None;
      }
      r := DecodeManifest(store.disk[h]);
      if r.Some? {
        for i := 0 to |r.value.chunks|
          invariant forall k :: 0 <= k < i ==> r.value.chunks[k] in store.disk
        {
          if r.value.chunks[i] !in store.disk {
            return None;
          }
        }
      }
    }

    /** Adopt one unindexed blob; nothing already indexed changes. */
    method Adopt(h: Hash, size: nat, chunks: seq<Hash>, now: int)
      requires RefsExact(State()) && Refs(State(), h) == {}
      modifies this`sets, this`blobs
      ensures old(h !in sets) && sets == old(sets)[h := Meta(false, size, chunks, now, now, "")]
      ensures RefsExact(State())
      ensures forall k :: Refs(State(), k) == old(Refs(State(), k)) + if k in Names(h, chunks) then {h} else {}
    {
      ghost var before := State();
      assert h in sets ==> Names'(before, h, h);
      var m := Meta(false, size, chunks, now, now, "");
      RecordSet(h, m);
      RecordFacts(before, h, m);
      RecordKeepsRefsExactly(before, h, m);
    }

    /** Manifests first: each complete one that nothing names yet is adopted with its chunks. */
    method AdoptManifests(ghost entries: map<Hash, Meta>, now: int)
      requires RefsExact(State()) && EntriesKept(store.disk, entries, now, State())
      requires AdoptedLast(store.disk, entries, State()) && ManifestsOnly(store.disk, entries, State())
      modifies this`sets, this`blobs
      ensures RefsExact(State()) && EntriesKept(store.disk, entries, now, State())
      ensures AdoptedLast(store.disk, entries, State())
      ensures forall h :: h in store.disk && CompleteManifest(store.disk, h).Some? ==> Refs(State(), h) != {}
    {
      hide RefsExact, EntriesKept, AdoptedLast, Names;
      var todo := store.disk.Keys;
      while todo != {}
        invariant todo <= store.disk.Keys && RefsExact(State()) && EntriesKept(store.disk, entries, now, State())
        invariant AdoptedLast(store.disk, entries, State()) && ManifestsOnly(store.disk, entries, State())
        invariant forall h :: h in store.disk && h !in todo && CompleteManifest(store.disk, h).Some? ==>
          Refs(State(), h) != {}
      {
        var h :| h in todo;
        todo := todo - {h};
        if h !in blobs || blobs[h] == {} {
          var m := ProbeManifest(h);
          if m.Some? {
            ManifestPositive(m.value);
            ghost var before := State();
            Adopt(h, |store.disk[h]| + m.value.totalSize, m.value.chunks, now);
            AdoptKeepsEntries(store.disk, entries, now, before, h, State());
            AdoptKeepsLast(store.disk, entries, now, before, h, State());
            NamesItself(h, m.value.chunks);
          }
        }
      }
    }

    /** Whatever is still unnamed is adopted alone. */
    method AdoptRest(ghost entries: map<Hash, Meta>, now: int)
      requires RefsExact(State()) && EntriesKept(store.disk, entries, now, State())
      requires AdoptedLast(store.disk, entries, State())
      requires forall h :: h in store.disk && CompleteManifest(store.disk, h).Some? ==> Refs(State(), h) != {}
      modifies this`sets, this`blobs
      ensures RefsExact(State()) && EntriesKept(store.disk, entries, now, State())
      ensures AdoptedLast(store.disk, entries, State()) && NoOrphans(State())
    {
      hide RefsExact, EntriesKept, AdoptedLast, Names, CompleteManifest;
      var todo := store.disk.Keys;
      while todo != {}
        invariant todo <= store.disk.Keys && RefsExact(State()) && EntriesKept(store.disk, entries, now, State())
        invariant AdoptedLast(store.disk, entries, State())
        invariant forall h :: h in store.disk && CompleteManifest(store.disk, h).Some? ==> Refs(State(), h) != {}
        invariant forall h :: h in store.disk && h !in todo ==> Refs(State(), h) != {}
      {
        var h :| h in todo;
        todo := todo - {h};
        if h !in blobs || blobs[h] == {} {
          ghost var before := State();
          Adopt(h, |store.disk[h]|, [], now);
          AdoptKeepsEntries(store.disk, entries, now, before, h, State());
          AdoptKeepsLast(store.disk, entries, now, before, h, State());
          NamesItself(h, []);
        }
      }
    }

    /** Reconciling an index file with the store. */
    method Load(entries: map<Hash, Meta>, now: int)
      requires sets == map[] && blobs == map[] && pending == map[] && reserved == 0
      modifies this`sets, this`blobs
      ensures Loaded(store.disk, entries, now, State())
    {
      LoadEntries(entries);
      assert forall r :: r in sets ==> Kept(store.disk, entries, r);
      AdoptManifests(entries, now);
      AdoptRest(entries, now);
    }

    // -------------------------------------------------------------- claims

    method ReleaseClaimsLocked(c: BlobClaims, discard: bool)
      requires c.ix == this
      modifies this, store, c
      ensures State() == ReleaseClaims(old(State()), old(c.hashes), discard)
      ensures c.hashes == []
    {
      var hashes := c.hashes;
      ghost var s := State();
      ReleaseNothing(s, discard);
      for i := 0 to |hashes|
        invariant State() == ReleaseClaims(s, hashes[..i], discard)
      {
        var h := hashes[i];
        ReleaseOneMore(s, hashes[..i], h, discard);
        assert hashes[..i + 1] == hashes[..i] + [h];
        var claimed: int := if h in pending then pending[h] else 0;
        var remaining := claimed - 1;
        if remaining > 0 {
          pending := pending[h := remaining];
        } else {
          pending := pending - {h};
        }
        if discard && remaining <= 0 && (h !in blobs || blobs[h] == {}) {
          store.Delete(h);
        }
      }
      assert hashes[..|hashes|] == hashes;
      c.hashes := [];
    }

    // -------------------------------------------------------------- references

    method ReferenceBlob(h: Hash, root: Hash)
      modifies this`blobs
      ensures State() == Reference(old(State()), root, {h})
    {
      if h !in blobs {
        blobs := blobs[h := {}];
      }
      blobs := blobs[h := blobs[h] + {root}];
    }

    method ReferenceSet(root: Hash, chunks: seq<Hash>)
      modifies this`blobs
      ensures State() == Reference(old(State()), root, Names(root, chunks))
    {
      ghost var s := State();
      ReferenceBlob(root, root);
      assert Names(root, chunks[..0]) == {root};
      for i := 0 to |chunks|
        invariant State() == Reference(s, root, Names(root, chunks[..i]))
      {
        ReferenceBlob(chunks[i], root);
        ReferenceTwice(s, root, Names(root, chunks[..i]), {chunks[i]});
        NamesStep(root, chunks, i);
      }
      assert chunks[..|chunks|] == chunks;
    }

    method UnreferenceBlob(h: Hash, root: Hash)
      modifies this`blobs, store
      ensures State() == Unreference(old(State()), root, {h})
    {
      var refs := (if h in blobs then blobs[h] else {}) - {root};
      if refs == {} {
        blobs := blobs - {h};
        if h !in pending || pending[h] == 0 {
          store.Delete(h);
        }
      } else {
        blobs := blobs[h := refs];
      }
    }

    method EvictLocked(root: Hash)
      modifies this`sets, this`blobs, store
      ensures State() == Evict(old(State()), root)
    {
      if root !in sets {
        return;
      }
      var chunks := sets[root].chunks;
      sets := sets - {root};
      ghost var s := State();
      UnreferenceBlob(root, root);
      assert Names(root, chunks[..0]) == {root};
      for i := 0 to |chunks|
        invariant State() == Unreference(s, root, Names(root, chunks[..i]))
      {
        UnreferenceBlob(chunks[i], root);
        UnreferenceTwice(s, root, Names(root, chunks[..i]), {chunks[i]});
        NamesStep(root, chunks, i);
      }
      assert chunks[..|chunks|] == chunks;
    }

    // -------------------------------------------------------------- recording sets

    method TouchLocked(root: Hash, now: int)
      modifies this`sets
      ensures State() == Touch(old(State()), root, now)
    {
      if root in sets {
        sets := sets[root := sets[root].(lastAccess := now)];
      }
    }

    method TouchBlob(h: Hash, now: int)
      modifies this
      ensures State() == TouchReferring(old(State()), h, now)
    {
      var roots := if h in blobs then blobs[h] else {};
      var todo := roots;
      while todo != {}
        invariant todo <= roots
        invariant blobs == old(blobs) && pending == old(pending) && reserved == old(reserved)
        invariant sets.Keys == old(sets).Keys
        invariant forall r :: r in sets ==>
                    sets[r] == (if r in roots - todo then old(sets)[r].(lastAccess := now) else old(sets)[r])
        decreases todo
      {
        var root :| root in todo;
        TouchLocked(root, now);
        todo := todo - {root};
      }
      assert sets == TouchReferring(old(State()), h, now).sets;
    }

    method MarkOwned(root: Hash, size: nat, chunks: seq<Hash>, claims: BlobClaims, now: int)
      requires claims.ix == this
      modifies this, store, claims
      ensures State() == IndexModel.MarkOwned(old(State()), root, size, chunks, old(claims.hashes), now)
      ensures claims.hashes == []
    {
      var m := if root in sets then sets[root] else Meta(false, 0, [], now, 0, "");
      m := m.(owned := true, size := size, chunks := chunks, lastAccess := now);
      sets := sets[root := m];
      ReferenceSet(root, chunks);
      ReleaseClaimsLocked(claims, false);
    }

    method AddHostedLocked(root: Hash, size: nat, chunks: seq<Hash>, from: string, now: int)
      modifies this`sets, this`blobs
      ensures State() == AddHosted(old(State()), root, size, chunks, from, now)
    {
      if root in sets {
        TouchLocked(root, now);
        return;
      }
      sets := sets[root := Meta(false, size, chunks, now, now, from)];
      ReferenceSet(root, chunks);
    }

    // -------------------------------------------------------------- the budget

    method HostedBytesLocked() returns (total: nat)
      ensures total == reserved + Hosted(sets)
    {
      total := reserved;
      var todo := sets.Keys;
      ghost var rest := sets;
      while todo != {}
        invariant rest.Keys == todo && rest.Items <= sets.Items
        invariant forall k :: k in rest ==> k in sets && rest[k] == sets[k]
        invariant total + Hosted(rest) == reserved + Hosted(sets)
      {
        var root :| root in todo;
        HostedSplit(rest, root);
        if !sets[root].owned {
          total := total + sets[root].size;
        }
        todo := todo - {root};
        rest := rest - {root};
      }
      HostedNone(rest);
    }

    /** One scan of the sets, in any order: expired before unexpired, then the oldest access. */
    method PickVictim(spared: set<Hash>, ttl: int, now: int) returns (victim: Option<Hash>)
      ensures victim.Some? ==> NextVictim(sets - spared, victim.value, ttl, now)
      ensures victim.None? ==> forall u :: u in sets - spared ==> !Evictable((sets - spared)[u], ttl, now)
    {
      victim := None;
      var victimExpired, oldest := false, 0;
      var todo := sets.Keys;
      while todo != {}
        invariant todo <= sets.Keys
        invariant victim.Some? ==> victim.value in sets && victim.value !in spared
                                   && Evictable(sets[victim.value], ttl, now)
        invariant victim.Some? ==> victimExpired == Expired(sets[victim.value], ttl, now)
                                   && oldest == sets[victim.value].lastAccess
        invariant forall u :: u in sets && u !in todo && u !in spared && Evictable(sets[u], ttl, now) ==>
                    victim.Some? && !Before(sets[u], sets[victim.value], ttl, now)
      {
        var root :| root in todo;
        todo := todo - {root};
        var m := sets[root];
        if m.owned || root in spared {
          continue;
        }
        var expired := ttl > 0 && now - m.lastAccess > ttl / NANOS;
        if !expired && now - m.storedAt < EVICTION_PROTECTION {
          continue;
        }
        if victim.None? || (expired && !victimExpired) || (expired == victimExpired && m.lastAccess < oldest) {
          victim, victimExpired, oldest := Some(root), expired, m.lastAccess;
        }
      }
    }

    /** Whether a hosted set of this size fits; sets are given up only when `apply` is set. */
    method FitLocked(q: Request, apply: bool) returns (ok: bool, ghost victims: seq<Hash>)
      modifies this`sets, this`blobs, store
      ensures FitRun(old(sets), old(reserved), q, victims, ok)
      ensures ok <==> Fits(old(sets), old(reserved), q)
      ensures State() == if apply then EvictAll(old(State()), victims) else old(State())
    {
      victims := [];
      if q.size > q.maxSize || q.size > q.budget {
        return false, victims;
      }
      ghost var s := State();
      var freed: nat, spared: set<Hash> := 0, {};
      var used := HostedBytesLocked();
      StartBudget(s, q, apply, used);
      while used - freed + q.size > q.budget
        invariant State() == (if apply then EvictAll(s, victims) else s) && s == old(State())
        invariant Budgeted(s, q, victims, apply, used, freed, spared)
        decreases |Minus(s.sets, victims)|
      {
        SparedIsMinus(s, victims, apply, spared);
        var victim := PickVictim(spared, q.ttl, q.now);
        if victim.None? {
          RunEnds(s, q, victims, apply, used, freed, spared, false);
          return false, victims;
        }
        var v := victim.value;
        NextBudget(s, q, victims, apply, used, freed, spared, v);
        if apply {
          EvictLocked(v);
        } else {
          freed := freed + sets[v].size;
          spared := spared + {v};
        }
        victims := victims + [v];
        used := HostedBytesLocked();
      }
      RunEnds(s, q, victims, apply, used, freed, spared, true);
      ok := true;
    }

    /** Holds room for a transfer that has yet to arrive; deletes nothing. */
    method Reserve(q: Request) returns (ok: bool)
      modifies this, store
      ensures ok <==> Fits(old(sets), old(reserved), q)
      ensures State() == if ok then old(State()).(reserved := old(reserved) + q.size) else old(State())
    {
      ghost var victims;
      ok, victims := FitLocked(q, false);
      if ok {
        reserved := reserved + q.size;
      }
    }

    method Release(size: nat)
      modifies this`reserved
      ensures State() == Unreserve(old(State()), size)
      ensures reserved + size == old(reserved) || (reserved == 0 && old(reserved) < size)
    {
      reserved := if reserved >= size then reserved - size else 0;
    }

    method CommitHosted(root: Hash, chunks: seq<Hash>, from: string, q: Request, claims: BlobClaims)
        returns (ok: bool, ghost victims: seq<Hash>)
      requires claims.ix == this
      modifies this, store, claims
      ensures FitRun(old(sets), Unreserve(old(State()), q.size).reserved, q, victims, ok)
      ensures ok <==> Fits(old(sets), Unreserve(old(State()), q.size).reserved, q)
      ensures State() == Commit(old(State()), root, q.size, chunks, from, victims, ok, old(claims.hashes), q.now)
      ensures claims.hashes == if ok then [] else old(claims.hashes)
    {
      Release(q.size);
      ok, victims := FitLocked(q, true);
      if !ok {
        return;
      }
      AddHostedLocked(root, q.size, chunks, from, q.now);
      ReleaseClaimsLocked(claims, false);
    }

    method Admit(q: Request) returns (ok: bool, ghost victims: seq<Hash>)
      modifies this, store
      ensures FitRun(old(sets), old(reserved), q, victims, ok)
      ensures ok <==> Fits(old(sets), old(reserved), q)
      ensures State() == EvictAll(old(State()), victims)
    {
      ok, victims := FitLocked(q, true);
    }
  }

  lemma NamesItself(root: Hash, chunks: seq<Hash>)
    ensures root in Names(root, chunks)
  {
  }

  // ---------------------------------------------------------------- the eviction loop

  /** What the loop knows each time it compares usage with the budget. */
  ghost predicate Budgeted(s: Index, q: Request, victims: seq<Hash>, apply: bool, used: int, freed: int,
                           spared: set<Hash>) {
    && !TooLarge(q) && VictimRun(s.sets, s.reserved, q, victims)
    && used - freed == s.reserved + Hosted(Minus(s.sets, victims))
    && used == s.reserved + Hosted(if apply then Minus(s.sets, victims) else s.sets)
    && spared == if apply then {} else set v | v in victims
  }

  lemma StartBudget(s: Index, q: Request, apply: bool, used: int)
    requires !TooLarge(q) && used == s.reserved + Hosted(s.sets)
    ensures Budgeted(s, q, [], apply, used, 0, {})
  {
    MinusNone(s.sets);
  }

  lemma SparedIsMinus(s: Index, victims: seq<Hash>, apply: bool, spared: set<Hash>)
    requires spared == if apply then {} else set v | v in victims
    ensures var now := if apply then EvictAll(s, victims) else s;
      && now.sets - spared == Minus(s.sets, victims) && now.reserved == s.reserved
      && now.sets == if apply then Minus(s.sets, victims) else s.sets
  {
    EvictAllSets(s, victims);
  }

  lemma NextBudget(s: Index, q: Request, victims: seq<Hash>, apply: bool, used: int, freed: int,
                   spared: set<Hash>, v: Hash)
    requires Budgeted(s, q, victims, apply, used, freed, spared) && used - freed + q.size > q.budget
    requires NextVictim(Minus(s.sets, victims), v, q.ttl, q.now)
    ensures v in s.sets && |Minus(s.sets, victims + [v])| < |Minus(s.sets, victims)|
    ensures apply ==> EvictAll(s, victims + [v]) == Evict(EvictAll(s, victims), v)
    ensures apply ==> var t := EvictAll(s, victims + [v]);
              Budgeted(s, q, victims + [v], true, t.reserved + Hosted(t.sets), freed, spared)
    ensures !apply ==>
      Budgeted(s, q, victims + [v], false, s.reserved + Hosted(s.sets), freed + s.sets[v].size, spared + {v})
  {
    NextRound(s, q, victims, v);
    if apply {
      EvictAllSets(s, victims + [v]);
    } else {
      OneMore(victims, v);
    }
  }

  lemma OneMore(victims: seq<Hash>, v: Hash)
    ensures (set u | u in victims + [v]) == (set u | u in victims) + {v}
  {
  }

  lemma RunEnds(s: Index, q: Request, victims: seq<Hash>, apply: bool, used: int, freed: int,
                spared: set<Hash>, ok: bool)
    requires Budgeted(s, q, victims, apply, used, freed, spared)
    requires ok <==> used - freed + q.size <= q.budget
    requires !ok ==> forall u :: u in Minus(s.sets, victims) ==> !Evictable(Minus(s.sets, victims)[u], q.ttl, q.now)
    ensures FitRun(s.sets, s.reserved, q, victims, ok)
    ensures ok <==> Fits(s.sets, s.reserved, q)
  {
    FitRunAnswer(s.sets, s.reserved, q, victims, ok);
  }

  lemma NextRound(s: Index, q: Request, victims: seq<Hash>, v: Hash)
    requires VictimRun(s.sets, s.reserved, q, victims) && Full(Minus(s.sets, victims), s.reserved, q)
    requires NextVictim(Minus(s.sets, victims), v, q.ttl, q.now)
    ensures VictimRun(s.sets, s.reserved, q, victims + [v])
    ensures Minus(s.sets, victims + [v]) == Minus(s.sets, victims) - {v}
    ensures v in s.sets && Hosted(Minus(s.sets, victims)) == s.sets[v].size + Hosted(Minus(s.sets, victims + [v]))
    ensures EvictAll(s, victims + [v]) == Evict(EvictAll(s, victims), v)
    ensures |Minus(s.sets, victims + [v])| < |Minus(s.sets, victims)|
  {
    var vs := victims + [v];
    RunExtends(s.sets, s.reserved, q, victims, v);
    assert vs[..|victims|] == victims;
    assert vs[..|victims| + 1] == vs;
    MinusStep(s.sets, vs, |victims|);
    HostedSplit(Minus(s.sets, victims), v);
    OneFewer(Minus(s.sets, victims), v);
  }

  lemma OneFewer(sets: map<Hash, Meta>, v: Hash)
    requires v in sets
    ensures |sets - {v}| < |sets|
  {
    assert (sets - {v}).Keys == sets.Keys - {v};
    assert |(sets - {v}).Keys| == |sets.Keys| - 1;
  }

  lemma RunExtends(sets: map<Hash, Meta>, reserved: nat, q: Request, victims: seq<Hash>, v: Hash)
    requires VictimRun(sets, reserved, q, victims) && Full(Minus(sets, victims), reserved, q)
    requires NextVictim(Minus(sets, victims), v, q.ttl, q.now)
    ensures VictimRun(sets, reserved, q, victims + [v])
  {
    var vs := victims + [v];
    assert vs[..|victims|] == victims;
    forall i | 0 <= i < |vs|
      ensures NextVictim(Minus(sets, vs[..i]), vs[i], q.ttl, q.now) && Full(Minus(sets, vs[..i]), reserved, q)
    {
      if i < |victims| {
        assert vs[..i] == victims[..i];
      }
    }
  }

  // ---------------------------------------------------------------- one step of each loop

  lemma NamesStep(root: Hash, chunks: seq<Hash>, i: nat)
    requires i < |chunks|
    ensures Names(root, chunks[..i + 1]) == Names(root, chunks[..i]) + {chunks[i]}
  {
    assert chunks[..i + 1] == chunks[..i] + [chunks[i]];
  }

  lemma ReferenceTwice(s: Index, root: Hash, a: set<Hash>, b: set<Hash>)
    ensures Reference(Reference(s, root, a), root, b) == Reference(s, root, a + b)
  {
    var x, y := Reference(Reference(s, root, a), root, b).blobs, Reference(s, root, a + b).blobs;
    assert x.Keys == y.Keys;
    assert forall h :: h in x ==> x[h] == y[h];
  }

  lemma UnreferenceTwice(s: Index, root: Hash, a: set<Hash>, b: set<Hash>)
    ensures Unreference(Unreference(s, root, a), root, b) == Unreference(s, root, a + b)
  {
    var once := Unreference(s, root, a);
    var x, y := Unreference(once, root, b), Unreference(s, root, a + b);
    assert forall h :: Refs(once, h) - {root} == Refs(s, h) - {root};
    forall h ensures h in x.blobs <==> h in y.blobs {
      if h in a && h in b && h in once.blobs {
        assert once.blobs[h] - {root} == once.blobs[h];
      }
    }
    assert x.blobs.Keys == y.blobs.Keys;
    assert x.blobs == y.blobs;
    assert x.disk == y.disk;
  }

  lemma ReleaseNothing(s: Index, discard: bool)
    ensures ReleaseClaims(s, [], discard) == s
  {
    assert Unwanted(s, []) == {};
    assert ReleaseClaims(s, [], discard).pending == s.pending;
  }

  lemma HostedNone(sets: map<Hash, Meta>)
    requires sets.Keys == {}
    ensures Hosted(sets) == 0
  {
  }

  function DropClaim(s: Index, h: Hash): map<Hash, nat> {
    if Claims(s, h) > 1 then s.pending[h := Claims(s, h) - 1] else s.pending - {h}
  }

  lemma ReleaseOneMore(s: Index, hs: seq<Hash>, h: Hash, discard: bool)
    ensures var s1, s2 := ReleaseClaims(s, hs, discard), ReleaseClaims(s, hs + [h], discard);
      && s2.pending == DropClaim(s1, h)
      && s2.disk == (if discard && Claims(s1, h) <= 1 && Refs(s1, h) == {} then s1.disk - {h} else s1.disk)
      && s2.sets == s1.sets && s2.blobs == s1.blobs && s2.reserved == s1.reserved
  {
    PendingStep(s, hs, h);
    UnwantedStep(s, hs, h);
  }

  /** One entry of the claim counts. */
  lemma PendingAt(s: Index, hs: seq<Hash>, h: Hash, k: Hash)
    ensures var p, q := ReleaseClaims(s, hs + [h], false).pending, DropClaim(ReleaseClaims(s, hs, false), h);
      (k in p <==> k in q) && (k in p ==> p[k] == q[k])
  {
    hide Unwanted, Refs;
    assert multiset(hs + [h])[k] == multiset(hs)[k] + if k == h then 1 else 0;
    assert k in hs + [h] <==> k in hs || k == h;
    assert k !in hs ==> multiset(hs)[k] == 0;
  }

  lemma PendingStep(s: Index, hs: seq<Hash>, h: Hash)
    ensures var s1 := ReleaseClaims(s, hs, false);
      ReleaseClaims(s, hs + [h], false).pending == DropClaim(s1, h) && Claims(s1, h) == LeftOver(s, hs, h)
  {
    assert h !in hs ==> multiset(hs)[h] == 0;
    assert Claims(ReleaseClaims(s, hs, false), h) == LeftOver(s, hs, h);
    hide ReleaseClaims, DropClaim;
    forall k { PendingAt(s, hs, h, k); }
  }

  lemma UnwantedStep(s: Index, hs: seq<Hash>, h: Hash)
    ensures Unwanted(s, hs + [h]) == Unwanted(s, hs) + (if LeftOver(s, hs, h) <= 1 && Refs(s, h) == {} then {h} else {})
  {
    assert forall k :: multiset(hs + [h])[k] == multiset(hs)[k] + if k == h then 1 else 0;
    assert Unwanted(s, hs + [h]) == Unwanted(s, hs) + (if LeftOver(s, hs, h) <= 1 && Refs(s, h) == {} then {h} else {});
  }
}
