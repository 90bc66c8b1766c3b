/** Which hosted sets a pass gives up, and what an access or a recording changes about it
    (internal/content/contentindex.go, internal/node/replicate.go). */
module Eviction {
  import opened Bytes
  import opened Content
  import opened IndexModel
  import opened IndexInvariant
  import opened Wire
  import opened Startup
  import opened ContentServiceCode

  // ---------------------------------------------------------------- accesses

  /** A set accessed at the pass's own time goes only after every other set that may go and was accessed earlier. */
  lemma AccessedNowGoesLast(sets: map<Hash, Meta>, reserved: nat, q: Request, vs: seq<Hash>, i: nat, u: Hash)
    requires i < |vs| && VictimRun(sets, reserved, q, vs)
    requires vs[i] in sets ==> sets[vs[i]].lastAccess == q.now
    requires u in sets && !sets[u].owned && sets[u].lastAccess < q.now
    requires (q.ttl > 0 && q.now - sets[u].lastAccess > q.ttl / 1000000000) || q.now - sets[u].storedAt >= 3600
    ensures u in vs[..i]
  {
    if u !in vs[..i] {
      VictimsInOrder(sets, reserved, q, vs, i, u);
    }
  }

  /** An offer of a set that is held is answered with 2, counts as an access to that set, and changes nothing else. */
  lemma HeldOfferRefreshes(s: Index, o: Offer, ask: Request, status: byte, t: Index)
    requires Answered(s, o, ask, status, t)
    ensures status == 2 <==> o.root in s.sets
    ensures status == 2 ==>
      && t.sets.Keys == s.sets.Keys && t.(sets := s.sets) == s
      && (forall r :: r in s.sets ==>
            t.sets[r] == s.sets[r].(lastAccess := if r == o.root then ask.now else s.sets[r].lastAccess))
    ensures status != 2 ==> t.(reserved := s.reserved) == s
    ensures t.reserved == s.reserved + if status == 1 then o.size else 0
  {
  }

  /** Reading a blob is an access to exactly the sets that name it. */
  lemma ReadRefreshes(s: Index, h: Hash, now: int)
    requires RefsExact(s)
    ensures var t := TouchReferring(s, h, now);
      && t.sets.Keys == s.sets.Keys && t.(sets := s.sets) == s
      && (forall r :: r in s.sets && h in Names(r, s.sets[r].chunks) ==> t.sets[r] == s.sets[r].(lastAccess := now))
      && (forall r :: r in s.sets && h !in Names(r, s.sets[r].chunks) ==> t.sets[r] == s.sets[r])
  {
    forall r | r in s.sets ensures r in Refs(s, h) <==> h in Names(r, s.sets[r].chunks) {
      assert r in Refs(s, h) <==> Names'(s, r, h);
    }
  }

  /** So a pass at that time spares it as long as another set with an earlier access may go. */
  lemma ReadGoesLast(s: Index, h: Hash, reserved: nat, q: Request, vs: seq<Hash>, i: nat, u: Hash)
    requires RefsExact(s) && i < |vs| && VictimRun(TouchReferring(s, h, q.now).sets, reserved, q, vs)
    requires vs[i] in s.sets && h in Names(vs[i], s.sets[vs[i]].chunks)
    requires u in s.sets && h !in Names(u, s.sets[u].chunks) && !s.sets[u].owned && s.sets[u].lastAccess < q.now
    requires (q.ttl > 0 && q.now - s.sets[u].lastAccess > q.ttl / 1000000000) || q.now - s.sets[u].storedAt >= 3600
    ensures u in vs[..i]
  {
    ReadRefreshes(s, h, q.now);
    AccessedNowGoesLast(TouchReferring(s, h, q.now).sets, reserved, q, vs, i, u);
  }

  // ---------------------------------------------------------------- new sets

  /** A set is safe from every pass in the hour after it was stored, unless its time to live has run out. */
  lemma YoungIsSpared(sets: map<Hash, Meta>, reserved: nat, q: Request, vs: seq<Hash>, r: Hash)
    requires VictimRun(sets, reserved, q, vs) && r in sets && q.now < sets[r].storedAt + 3600
    requires q.ttl > 0 ==> q.now - sets[r].lastAccess <= q.ttl / 1000000000
    ensures r !in vs
  {
    forall i | 0 <= i < |vs| ensures vs[i] != r {
      VictimAt(sets, reserved, q, vs, i);
      if vs[i] == r {
        assert r in Minus(sets, vs[..i]);
        VictimsInOrder(sets, reserved, q, vs, i, r);
        assert false;
      }
    }
  }

  /** A commit stores a new set as of its own time, under its sender, and leaves every entry that it did not evict as
      it was; a set already held counts as accessed. */
  lemma CommittedEntry(s: Index, root: Hash, size: nat, chunks: seq<Hash>, from: string, victims: seq<Hash>,
                       hs: seq<Hash>, now: int)
    ensures var t := Commit(s, root, size, chunks, from, victims, true, hs, now);
      && root in t.sets
      && (root in s.sets && root !in victims ==> t.sets[root] == s.sets[root].(lastAccess := now))
      && (root !in s.sets || root in victims ==> t.sets[root] == Meta(false, size, chunks, now, now, from))
      && forall r :: r != root ==>
           (r in t.sets <==> r in s.sets && r !in victims) && (r in t.sets ==> t.sets[r] == s.sets[r])
  {
    hide EvictAll, ReleaseClaims, Reference;
    var mid := EvictAll(Unreserve(s, size), victims);
    EvictAllSets(Unreserve(s, size), victims);
    ReleaseSets(AddHosted(mid, root, size, chunks, from, now), hs);
    AddedSets(mid, root, size, chunks, from, now);
  }

  lemma ReleaseSets(u: Index, hs: seq<Hash>)
    ensures ReleaseClaims(u, hs, false).sets == u.sets
  {
  }

  lemma AddedSets(u: Index, root: Hash, size: nat, chunks: seq<Hash>, from: string, now: int)
    ensures AddHosted(u, root, size, chunks, from, now).sets ==
      u.sets[root := if root in u.sets then u.sets[root].(lastAccess := now)
                     else Meta(false, size, chunks, now, now, from)]
  {
  }

  /** A publish keeps the age and the origin of a set that was held, and dates one that was not. */
  lemma PublishedEntry(s: Index, root: Hash, size: nat, chunks: seq<Hash>, hs: seq<Hash>, now: int)
    ensures var t := MarkOwned(s, root, size, chunks, hs, now);
      && root in t.sets
      && (root in s.sets ==> t.sets[root] == Meta(true, size, chunks, s.sets[root].storedAt, now, s.sets[root].from))
      && (root !in s.sets ==> t.sets[root] == Meta(true, size, chunks, now, now, ""))
      && t.sets - {root} == s.sets - {root}
  {
    ReleaseFacts(Record(s, root, MarkOwned(s, root, size, chunks, hs, now).sets[root]), hs, false);
  }

  /** What start-up adopts is as of that time, hosted, and from nobody. */
  lemma AdoptedEntry(disk: map<Hash, Bytes>, entries: map<Hash, Meta>, now: int, s: Index, r: Hash)
    requires Loaded(disk, entries, now, s) && r in s.sets && !Kept(disk, entries, r)
    ensures s.sets[r] == Meta(false, s.sets[r].size, s.sets[r].chunks, now, now, "")
  {
    hide RefsExact, NoOrphans, AdoptedLast;
  }

  // ---------------------------------------------------------------- the limits

  /** What a pass accepts is within the size limit and, with what is left, within the budget; what it refuses exceeds
      one of them, even with every set gone that may go. */
  lemma AnswerExactly(sets: map<Hash, Meta>, reserved: nat, q: Request, vs: seq<Hash>, ok: bool)
    requires FitRun(sets, reserved, q, vs, ok)
    ensures ok ==> q.size <= q.maxSize && reserved + Hosted(Minus(sets, vs)) + q.size <= q.budget
    ensures !ok && q.size <= q.maxSize && q.size <= q.budget ==>
      && reserved + Hosted(Minus(sets, vs)) + q.size > q.budget
      && (forall u :: u in sets && u !in vs && !sets[u].owned ==>
            && q.now - sets[u].storedAt < 3600
            && (q.ttl > 0 ==> q.now - sets[u].lastAccess <= q.ttl / 1000000000))
  {
    hide Hosted;
    if !ok && !TooLarge(q) {
      forall u | u in sets && u !in vs ensures !Evictable(sets[u], q.ttl, q.now) {
        assert u in Minus(sets, vs) && Minus(sets, vs)[u] == sets[u];
      }
    }
  }
}
