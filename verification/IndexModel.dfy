/** What each critical section of the content index does to the index and the store, in closed form
    (internal/content/contentindex.go). */
module IndexModel {
  import opened Bytes
  import opened Content
  import opened Sums

  const EVICTION_PROTECTION: int := 3600
  const NANOS: int := 1000000000

  datatype Meta = Meta(owned: bool, size: nat, chunks: seq<Hash>, storedAt: int, lastAccess: int, from: string)

  datatype Index = Index(
    sets: map<Hash, Meta>,
    blobs: map<Hash, set<Hash>>,
    pending: map<Hash, nat>,
    reserved: nat,
    disk: map<Hash, Bytes>)

  /** Every blob a set is made of. */
  function Names(root: Hash, chunks: seq<Hash>): set<Hash> {
    {root} + set h | h in chunks
  }

  /** The sets that reference a blob. */
  function Refs(s: Index, h: Hash): set<Hash> {
    if h in s.blobs then s.blobs[h] else {}
  }

  /** The number of in-flight claims on a blob. */
  function Claims(s: Index, h: Hash): nat {
    if h in s.pending then s.pending[h] else 0
  }

  // ---------------------------------------------------------------- claims

  function AddClaim(s: Index, h: Hash): Index {
    s.(pending := s.pending[h := Claims(s, h) + 1])
  }

  /** The claims left on `h` once each of `hashes` has been dropped; never below zero. */
  function LeftOver(s: Index, hashes: seq<Hash>, h: Hash): nat {
    if Claims(s, h) > multiset(hashes)[h] then Claims(s, h) - multiset(hashes)[h] else 0
  }

  /** The blobs nobody wants any more once `hashes` has been dropped. */
  function Unwanted(s: Index, hashes: seq<Hash>): set<Hash> {
    set h | h in hashes && LeftOver(s, hashes, h) == 0 && Refs(s, h) == {}
  }

  /** Drop one claim per entry of `hashes`; when discarding, delete what is wanted by nobody. */
  function ReleaseClaims(s: Index, hashes: seq<Hash>, discard: bool): Index {
    s.(pending := map h | h in s.pending && (h in hashes ==> LeftOver(s, hashes, h) > 0) ::
                    if h in hashes then LeftOver(s, hashes, h) else s.pending[h],
       disk := if discard then s.disk - Unwanted(s, hashes) else s.disk)
  }

  // ---------------------------------------------------------------- references

  function Reference(s: Index, root: Hash, names: set<Hash>): Index {
    s.(blobs := map h | h in s.blobs.Keys + names :: if h in names then Refs(s, h) + {root} else s.blobs[h])
  }

  /** Drop `root` from the references of `names`, deleting every blob left unreferenced and unclaimed. */
  function Unreference(s: Index, root: Hash, names: set<Hash>): Index {
    s.(blobs := map h | h in s.blobs && (h in names ==> s.blobs[h] - {root} != {}) ::
                  if h in names then s.blobs[h] - {root} else s.blobs[h],
       disk := s.disk - (set h | h in names && Refs(s, h) - {root} == {} && Claims(s, h) == 0))
  }

  function Evict(s: Index, root: Hash): Index {
    if root !in s.sets then s
    else Unreference(s.(sets := s.sets - {root}), root, Names(root, s.sets[root].chunks))
  }

  function EvictAll(s: Index, victims: seq<Hash>): Index {
    if victims == [] then s
    else Evict(EvictAll(s, victims[..|victims| - 1]), victims[|victims| - 1])
  }

  // ---------------------------------------------------------------- recording sets

  function Touch(s: Index, root: Hash, now: int): Index {
    if root in s.sets then s.(sets := s.sets[root := s.sets[root].(lastAccess := now)]) else s
  }

  /** Every set that references the blob counts as accessed. */
  function TouchReferring(s: Index, h: Hash, now: int): Index {
    s.(sets := map r | r in s.sets :: if r in Refs(s, h) then s.sets[r].(lastAccess := now) else s.sets[r])
  }

  function MarkOwned(s: Index, root: Hash, size: nat, chunks: seq<Hash>, hashes: seq<Hash>, now: int): Index {
    var m := if root in s.sets then s.sets[root].(owned := true, size := size, chunks := chunks, lastAccess := now)
             else Meta(true, size, chunks, now, now, "");
    ReleaseClaims(Reference(s.(sets := s.sets[root := m]), root, Names(root, chunks)), hashes, false)
  }

  function AddHosted(s: Index, root: Hash, size: nat, chunks: seq<Hash>, from: string, now: int): Index {
    if root in s.sets then Touch(s, root, now)
    else
      var m := Meta(false, size, chunks, now, now, from);
      Reference(s.(sets := s.sets[root := m]), root, Names(root, chunks))
  }

  // ---------------------------------------------------------------- the hosting budget

  function HostedSize(sets: map<Hash, Meta>, root: Hash): nat {
    if root in sets && !sets[root].owned then sets[root].size else 0
  }

  /** Bytes of all hosted (not owned) sets. */
  ghost function Hosted(sets: map<Hash, Meta>): nat {
    Sum(sets.Keys, root => HostedSize(sets, root))
  }

  predicate Expired(m: Meta, ttl: int, now: int) {
    ttl > 0 && now - m.lastAccess > ttl / NANOS
  }

  /** Owned sets and young, unexpired hosted sets are never evicted. */
  predicate Evictable(m: Meta, ttl: int, now: int) {
    !m.owned && (Expired(m, ttl, now) || now - m.storedAt >= EVICTION_PROTECTION)
  }

  /** Bytes of the hosted sets that no eviction pass can remove. */
  ghost function Protected(sets: map<Hash, Meta>, ttl: int, now: int): nat {
    Sum(sets.Keys, root => if root in sets && Evictable(sets[root], ttl, now) then 0 else HostedSize(sets, root))
  }

  /** Expired sets go first, then the least recently accessed. */
  predicate Before(a: Meta, b: Meta, ttl: int, now: int) {
    || (Expired(a, ttl, now) && !Expired(b, ttl, now))
    || (Expired(a, ttl, now) == Expired(b, ttl, now) && a.lastAccess < b.lastAccess)
  }

  /** An evictable set that no other evictable set has to precede. */
  ghost predicate NextVictim(sets: map<Hash, Meta>, v: Hash, ttl: int, now: int) {
    && v in sets && Evictable(sets[v], ttl, now)
    && forall u :: u in sets && Evictable(sets[u], ttl, now) ==> !Before(sets[u], sets[v], ttl, now)
  }

  function Minus(sets: map<Hash, Meta>, vs: seq<Hash>): map<Hash, Meta> {
    sets - set v | v in vs
  }

  /** What one eviction pass asks for. */
  datatype Request = Request(size: nat, budget: int, maxSize: int, ttl: int, now: int)

  ghost predicate Full(sets: map<Hash, Meta>, reserved: nat, q: Request) {
    reserved + Hosted(sets) + q.size > q.budget
  }

  /** `vs` are the sets given up, in order: each one is the next victim at its turn and each was needed. */
  ghost predicate VictimRun(sets: map<Hash, Meta>, reserved: nat, q: Request, vs: seq<Hash>) {
    forall i :: 0 <= i < |vs| ==>
      && NextVictim(Minus(sets, vs[..i]), vs[i], q.ttl, q.now)
      && Full(Minus(sets, vs[..i]), reserved, q)
  }

  ghost predicate TooLarge(q: Request) {
    q.size > q.maxSize || q.size > q.budget
  }

  /** One pass of the eviction loop: it stops when the request fits or nothing more can go. */
  ghost predicate FitRun(sets: map<Hash, Meta>, reserved: nat, q: Request, vs: seq<Hash>, ok: bool) {
    if TooLarge(q) then vs == [] && !ok
    else
      && VictimRun(sets, reserved, q, vs)
      && (ok <==> !Full(Minus(sets, vs), reserved, q))
      && (!ok ==> forall u :: u in Minus(sets, vs) ==> !Evictable(Minus(sets, vs)[u], q.ttl, q.now))
  }

  /** The answer in closed form, independent of the order in which victims are met. */
  ghost predicate Fits(sets: map<Hash, Meta>, reserved: nat, q: Request) {
    !TooLarge(q) && reserved + Protected(sets, q.ttl, q.now) + q.size <= q.budget
  }

  function Unreserve(s: Index, size: nat): Index {
    s.(reserved := if s.reserved >= size then s.reserved - size else 0)
  }

  /** Recording a received set after the eviction pass that made room for it. */
  function Commit(s: Index, root: Hash, size: nat, chunks: seq<Hash>, from: string, victims: seq<Hash>, ok: bool,
                  hashes: seq<Hash>, now: int): Index {
    var s1 := EvictAll(Unreserve(s, size), victims);
    if ok then ReleaseClaims(AddHosted(s1, root, size, chunks, from, now), hashes, false) else s1
  }

  // ---------------------------------------------------------------- facts about the eviction pass

  lemma HostedSplit(sets: map<Hash, Meta>, v: Hash)
    requires v in sets
    ensures Hosted(sets) == HostedSize(sets, v) + Hosted(sets - {v})
  {
    var rest := sets - {v};
    assert rest.Keys == sets.Keys - {v};
    SumRemove(sets.Keys, v, root => HostedSize(sets, root));
    SumSame(rest.Keys, root => HostedSize(sets, root), root => HostedSize(rest, root));
  }

  lemma ProtectedIgnores(sets: map<Hash, Meta>, v: Hash, ttl: int, now: int)
    requires v in sets && Evictable(sets[v], ttl, now)
    ensures Protected(sets - {v}, ttl, now) == Protected(sets, ttl, now)
  {
    var rest := sets - {v};
    assert rest.Keys == sets.Keys - {v};
    var f := (root: Hash) => if root in sets && Evictable(sets[root], ttl, now) then 0 else HostedSize(sets, root);
    var g := (root: Hash) => if root in rest && Evictable(rest[root], ttl, now) then 0 else HostedSize(rest, root);
    SumRemove(sets.Keys, v, f);
    SumSame(rest.Keys, f, g);
  }

  lemma ProtectedBound(sets: map<Hash, Meta>, ttl: int, now: int)
    ensures Protected(sets, ttl, now) <= Hosted(sets)
    ensures (forall u :: u in sets ==> !Evictable(sets[u], ttl, now)) ==> Protected(sets, ttl, now) == Hosted(sets)
  {
    var f := (root: Hash) => if root in sets && Evictable(sets[root], ttl, now) then 0 else HostedSize(sets, root);
    var g := (root: Hash) => HostedSize(sets, root);
    SumBelow(sets.Keys, f, g);
    if forall u :: u in sets ==> !Evictable(sets[u], ttl, now) {
      SumSame(sets.Keys, f, g);
    }
  }

  lemma {:induction false} SumBelow(ks: set<Hash>, f: Hash -> nat, g: Hash -> nat)
    requires forall k :: k in ks ==> f(k) <= g(k)
    ensures Sum(ks, f) <= Sum(ks, g)
    decreases ks
  {
    if ks != {} {
      var k :| k in ks;
      SumRemove(ks, k, f);
      SumRemove(ks, k, g);
      SumBelow(ks - {k}, f, g);
    }
  }

  lemma MinusStep(sets: map<Hash, Meta>, vs: seq<Hash>, i: nat)
    requires i < |vs|
    ensures Minus(sets, vs[..i + 1]) == Minus(sets, vs[..i]) - {vs[i]}
  {
    assert vs[..i + 1] == vs[..i] + [vs[i]];
  }

  lemma MinusNone(sets: map<Hash, Meta>)
    ensures Minus(sets, []) == sets
  {
  }

  /** A pass takes exactly its victims out of the sets and leaves claims and reservations alone. */
  lemma {:induction false} EvictAllSets(s: Index, victims: seq<Hash>)
    ensures EvictAll(s, victims).sets == Minus(s.sets, victims)
    ensures EvictAll(s, victims).reserved == s.reserved
    ensures EvictAll(s, victims).pending == s.pending
  {
    if victims == [] {
      MinusNone(s.sets);
    } else {
      var n := |victims| - 1;
      EvictAllSets(s, victims[..n]);
      MinusStep(s.sets, victims, n);
      assert victims[..n + 1] == victims;
    }
  }

  lemma OneVictim(sets: map<Hash, Meta>, v: Hash, ttl: int, now: int)
    requires NextVictim(sets, v, ttl, now)
    ensures Protected(sets - {v}, ttl, now) == Protected(sets, ttl, now)
  {
    ProtectedIgnores(sets, v, ttl, now);
  }

  lemma VictimAt(sets: map<Hash, Meta>, reserved: nat, q: Request, vs: seq<Hash>, i: nat)
    requires i < |vs| && VictimRun(sets, reserved, q, vs)
    ensures NextVictim(Minus(sets, vs[..i]), vs[i], q.ttl, q.now)
    ensures Minus(sets, vs[..i + 1]) == Minus(sets, vs[..i]) - {vs[i]}
  {
    MinusStep(sets, vs, i);
  }

  lemma {:induction false} ProtectedAfterRun(sets: map<Hash, Meta>, reserved: nat, q: Request, vs: seq<Hash>, i: nat)
    requires i <= |vs| && VictimRun(sets, reserved, q, vs)
    ensures Protected(Minus(sets, vs[..i]), q.ttl, q.now) == Protected(sets, q.ttl, q.now)
    decreases i
  {
    hide Protected, VictimRun, NextVictim, Minus;
    if i == 0 {
      assert vs[..0] == [];
      MinusNone(sets);
    } else {
      ProtectedAfterRun(sets, reserved, q, vs, i - 1);
      VictimAt(sets, reserved, q, vs, i - 1);
      OneVictim(Minus(sets, vs[..i - 1]), vs[i - 1], q.ttl, q.now);
    }
  }

  /** Whatever victims the pass met, its answer is the closed form: dry and applying runs agree. */
  lemma FitRunAnswer(sets: map<Hash, Meta>, reserved: nat, q: Request, vs: seq<Hash>, ok: bool)
    requires FitRun(sets, reserved, q, vs, ok)
    ensures ok <==> Fits(sets, reserved, q)
  {
    if !TooLarge(q) {
      ProtectedAfterRun(sets, reserved, q, vs, |vs|);
      assert vs[..|vs|] == vs;
      ProtectedBound(Minus(sets, vs), q.ttl, q.now);
    }
  }

  /** Which sets may go next, told from their fields: hosted ones that are past their time to live or an hour old.
      Those past it go first; otherwise the one whose last access is earliest. */
  lemma NextVictimExactly(sets: map<Hash, Meta>, v: Hash, ttl: int, now: int)
    ensures NextVictim(sets, v, ttl, now) <==>
      var past := (m: Meta) => ttl > 0 && now - m.lastAccess > ttl / 1000000000;
      var may := (m: Meta) => !m.owned && (past(m) || now - m.storedAt >= 3600);
      && v in sets && may(sets[v])
      && (forall u :: u in sets && may(sets[u]) ==>
            && (past(sets[u]) ==> past(sets[v]))
            && (past(sets[u]) == past(sets[v]) ==> sets[v].lastAccess <= sets[u].lastAccess))
  {
    var past := (m: Meta) => ttl > 0 && now - m.lastAccess > ttl / 1000000000;
    var may := (m: Meta) => !m.owned && (past(m) || now - m.storedAt >= 3600);
    assert forall m: Meta :: Evictable(m, ttl, now) <==> may(m);
    if v in sets && may(sets[v]) {
      forall u | u in sets && may(sets[u])
        ensures !Before(sets[u], sets[v], ttl, now) <==>
          && (past(sets[u]) ==> past(sets[v]))
          && (past(sets[u]) == past(sets[v]) ==> sets[v].lastAccess <= sets[u].lastAccess)
      {
      }
    }
  }

  /** Each victim, at its turn, is a hosted set that is past its time to live or an hour old, and has not been taken
      yet. If another one that still may go is past its time to live, so is the victim; if both or neither are, the
      victim's last access is no later. */
  lemma VictimsInOrder(sets: map<Hash, Meta>, reserved: nat, q: Request, vs: seq<Hash>, i: nat, u: Hash)
    requires i < |vs| && VictimRun(sets, reserved, q, vs) && u in sets && u !in vs[..i]
    ensures vs[i] in sets && vs[i] !in vs[..i]
    ensures var past := (m: Meta) => q.ttl > 0 && q.now - m.lastAccess > q.ttl / 1000000000;
      var may := (m: Meta) => !m.owned && (past(m) || q.now - m.storedAt >= 3600);
      && may(sets[vs[i]])
      && (may(sets[u]) ==>
            && (past(sets[u]) ==> past(sets[vs[i]]))
            && (past(sets[u]) == past(sets[vs[i]]) ==> sets[vs[i]].lastAccess <= sets[u].lastAccess))
  {
    VictimAt(sets, reserved, q, vs, i);
    var left := Minus(sets, vs[..i]);
    NextVictimExactly(left, vs[i], q.ttl, q.now);
    assert u in left && left[u] == sets[u];
    assert vs[i] in left && left[vs[i]] == sets[vs[i]];
  }

  /** A pass that fails after the size checks has given up everything it was allowed to. */
  lemma FailedPassEvictsAll(sets: map<Hash, Meta>, reserved: nat, q: Request, vs: seq<Hash>, u: Hash)
    requires FitRun(sets, reserved, q, vs, false) && !TooLarge(q)
    requires u in sets
    ensures Evictable(sets[u], q.ttl, q.now) <==> u in vs
  {
    if u in vs {
      var i :| 0 <= i < |vs| && vs[i] == u;
      VictimAt(sets, reserved, q, vs, i);
      assert u in Minus(sets, vs[..i]) && Minus(sets, vs[..i])[u] == sets[u];
    } else {
      assert u in Minus(sets, vs) && Minus(sets, vs)[u] == sets[u];
    }
  }
}
