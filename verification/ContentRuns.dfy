/** Any number of publishers, push receivers and eviction passes interleaving on one content index.
    Each action is one critical section, or one blob written to the store between two of them
    (internal/content/contentindex.go, internal/node/contentnet.go, internal/node/replicate.go). */
module ContentRuns {
  import opened Bytes
  import opened Content
  import opened Sums
  import opened IndexModel
  import opened IndexInvariant

  /** A transfer in progress: the blobs it has claimed, those it has written, and the bytes reserved for it. */
  datatype Writer = Writer(claims: seq<Hash>, stored: seq<Hash>, promise: Option<nat>)

  datatype System = System(ix: Index, writers: map<int, Writer>)

  datatype Action =
    | Begin(id: int)
    | Claim(id: int, h: Hash)
    | Put(id: int, h: Hash)
    | Discard(id: int)
    | Publish(id: int, root: Hash, size: nat, chunks: seq<Hash>, now: int)
    | Reserve(id: int, q: Request)
    | Release(id: int)
    | CommitPush(id: int, root: Hash, chunks: seq<Hash>, from: string, q: Request, victims: seq<Hash>, ok: bool)
    | Admit(q: Request, victims: seq<Hash>, ok: bool)
    | TouchSet(root: Hash, now: int)

  function Elems(hs: seq<Hash>): set<Hash> {
    set h | h in hs
  }

  /** Bytes of the blobs a writer has accepted, counting a blob listed twice twice. */
  function ListWeight(hs: seq<Hash>): nat {
    if hs == [] then 0 else ListWeight(hs[..|hs| - 1]) + Weight(hs[|hs| - 1])
  }

  /** A writer records a set only after claiming and writing exactly its blobs. */
  ghost predicate Ready(w: Writer, root: Hash, chunks: seq<Hash>, size: nat) {
    Elems(w.claims) == Elems(w.stored) == Names(root, chunks) && size == ListWeight(w.claims)
  }

  /** A publish over a root already indexed may add blobs to its set, never drop any. */
  ghost predicate Extends(s: Index, root: Hash, chunks: seq<Hash>) {
    root in s.sets ==> forall h :: h in s.sets[root].chunks ==> h == root || h in chunks
  }

  /** A push that finds its root indexed by then finds it with the same chunks. */
  ghost predicate Agrees(s: Index, root: Hash, chunks: seq<Hash>) {
    root in s.sets ==> s.sets[root].chunks == chunks
  }

  ghost predicate WithinOffer(w: Writer) {
    w.promise.Some? ==> ListWeight(w.claims) <= w.promise.value
  }

  /** What the code does not refuse: the actions of writers that follow the two protocols. */
  ghost predicate Possible(budget: int, s: System, a: Action) {
    match a
    case Begin(id) => id !in s.writers
    case Claim(id, h) =>
      id in s.writers && WithinOffer(s.writers[id].(claims := s.writers[id].claims + [h]))
    case Put(id, h) => id in s.writers && h in s.writers[id].claims
    case Discard(id) => id in s.writers
    case Publish(id, root, size, chunks, now) =>
      id in s.writers && s.writers[id].promise.None? && Ready(s.writers[id], root, chunks, size)
    case Reserve(id, q) =>
      id in s.writers && s.writers[id] == Writer([], [], None) && q.budget == budget
    case Release(id) => id in s.writers && s.writers[id].promise.Some?
    case CommitPush(id, root, chunks, from, q, victims, ok) =>
      && id in s.writers && s.writers[id].promise == Some(q.size) && q.budget == budget
      && Ready(s.writers[id], root, chunks, q.size)
      && FitRun(s.ix.sets, Unreserve(s.ix, q.size).reserved, q, victims, ok)
    case Admit(q, victims, ok) => FitRun(s.ix.sets, s.ix.reserved, q, victims, ok)
    case TouchSet(root, now) => true
  }

  /** A recording goes with what is indexed under its root by then. */
  ghost predicate Concordant(s: Index, a: Action) {
    match a
    case Publish(id, root, size, chunks, now) => Extends(s, root, chunks)
    case CommitPush(id, root, chunks, from, q, victims, ok) => ok ==> Agrees(s, root, chunks)
    case _ => true
  }

  /** The actions of the runs. */
  ghost predicate Enabled(budget: int, s: System, a: Action) {
    Possible(budget, s, a) && Concordant(s.ix, a)
  }

  ghost function Apply(budget: int, s: System, a: Action): System
    requires Possible(budget, s, a)
  {
    match a
    case Begin(id) => s.(writers := s.writers[id := Writer([], [], None)])
    case Claim(id, h) =>
      System(AddClaim(s.ix, h), s.writers[id := s.writers[id].(claims := s.writers[id].claims + [h])])
    case Put(id, h) =>
      System(PutBlob(s.ix, h), s.writers[id := s.writers[id].(stored := s.writers[id].stored + [h])])
    case Discard(id) =>
      System(ReleaseClaims(s.ix, s.writers[id].claims, true),
             s.writers[id := s.writers[id].(claims := [], stored := [])])
    case Publish(id, root, size, chunks, now) =>
      System(MarkOwned(s.ix, root, size, chunks, s.writers[id].claims, now), s.writers[id := Writer([], [], None)])
    case Reserve(id, q) =>
      if Fits(s.ix.sets, s.ix.reserved, q)
      then System(s.ix.(reserved := s.ix.reserved + q.size), s.writers[id := Writer([], [], Some(q.size))])
      else s
    case Release(id) =>
      System(Unreserve(s.ix, s.writers[id].promise.value), s.writers[id := s.writers[id].(promise := None)])
    case CommitPush(id, root, chunks, from, q, victims, ok) =>
      System(Commit(s.ix, root, q.size, chunks, from, victims, ok, s.writers[id].claims, q.now),
             s.writers[id := if ok then Writer([], [], None) else s.writers[id].(promise := None)])
    case Admit(q, victims, ok) => s.(ix := EvictAll(s.ix, victims))
    case TouchSet(root, now) => s.(ix := Touch(s.ix, root, now))
  }

  // ---------------------------------------------------------------- claims are counted exactly

  function Holds(ws: map<int, Writer>, id: int, h: Hash): nat {
    if id in ws then multiset(ws[id].claims)[h] else 0
  }

  /** The claims of all writers on one blob. */
  ghost function AllClaims(ws: map<int, Writer>, h: Hash): nat {
    Sum(ws.Keys, id => Holds(ws, id, h))
  }

  ghost predicate Counted(s: System) {
    forall h :: Claims(s.ix, h) == AllClaims(s.writers, h)
  }

  lemma WriterUpdate(ws: map<int, Writer>, id: int, w: Writer, h: Hash)
    requires id in ws
    ensures AllClaims(ws[id := w], h) + multiset(ws[id].claims)[h] == AllClaims(ws, h) + multiset(w.claims)[h]
  {
    var us := ws[id := w];
    assert us.Keys == ws.Keys;
    SumUpdate(ws.Keys, id, i => Holds(ws, i, h), i => Holds(us, i, h));
  }

  lemma WriterAdded(ws: map<int, Writer>, id: int, w: Writer, h: Hash)
    requires id !in ws && w.claims == []
    ensures AllClaims(ws[id := w], h) == AllClaims(ws, h)
  {
    var us := ws[id := w];
    assert us.Keys == ws.Keys + {id};
    SumAdd(ws.Keys, id, i => Holds(us, i, h));
    SumSame(ws.Keys, i => Holds(ws, i, h), i => Holds(us, i, h));
  }

  lemma WriterShare(ws: map<int, Writer>, id: int, h: Hash)
    requires id in ws
    ensures multiset(ws[id].claims)[h] <= AllClaims(ws, h)
  {
    SumRemove(ws.Keys, id, i => Holds(ws, i, h));
  }

  lemma {:induction false} SomeClaimant(ids: set<int>, ws: map<int, Writer>, h: Hash) returns (id: int)
    requires ids <= ws.Keys && Sum(ids, i => Holds(ws, i, h)) > 0
    ensures id in ids && h in ws[id].claims
    decreases ids
  {
    id :| id in ids;
    SumRemove(ids, id, i => Holds(ws, i, h));
    if h !in ws[id].claims {
      assert multiset(ws[id].claims)[h] == 0;
      id := SomeClaimant(ids - {id}, ws, h);
    }
  }

  // ---------------------------------------------------------------- the invariant

  /** What a writer has written is claimed by it and on disk. */
  ghost predicate StoredAt(s: System, id: int, h: Hash) {
    id in s.writers && h in s.writers[id].stored ==> h in s.writers[id].claims && h in s.ix.disk
  }

  ghost predicate StoredOnDisk(s: System) {
    forall id, h :: StoredAt(s, id, h)
  }

  ghost predicate Inv(s: System) {
    && IxInv(s.ix) && Counted(s) && StoredOnDisk(s)
    && (forall id :: id in s.writers ==> WithinOffer(s.writers[id]))
  }

  lemma {:induction false} SetBelowList(hs: seq<Hash>)
    ensures Sum(Elems(hs), Weight) <= ListWeight(hs)
  {
    if hs == [] {
    } else {
      var n := |hs| - 1;
      SetBelowList(hs[..n]);
      assert Elems(hs) == Elems(hs[..n]) + {hs[n]};
      SumUnion(Elems(hs[..n]), {hs[n]}, Weight);
      SumOne(hs[n]);
    }
  }

  lemma SumOne(h: Hash)
    ensures Sum({h}, Weight) == Weight(h)
  {
    SumRemove({h}, h, Weight);
    assert {h} - {h} == {};
  }

  lemma ClaimedStaysOnDisk(s: System, id: int, h: Hash)
    requires Counted(s) && id in s.writers && h in s.writers[id].claims
    ensures Claims(s.ix, h) > 0
  {
    WriterShare(s.writers, id, h);
    assert multiset(s.writers[id].claims)[h] > 0;
  }

  lemma ReadyMeans(s: System, id: int, root: Hash, chunks: seq<Hash>, size: nat)
    requires Inv(s) && id in s.writers && Ready(s.writers[id], root, chunks, size)
    ensures forall h :: h in Names(root, chunks) <==> h in s.writers[id].claims
    ensures forall h :: h in Names(root, chunks) ==> h in s.ix.disk && Claims(s.ix, h) > 0
    ensures Recordable(s.ix, root, size, chunks)
  {
    var w := s.writers[id];
    assert forall h :: h in Elems(w.claims) <==> h in w.claims;
    assert forall h :: h in Elems(w.stored) <==> h in w.stored;
    forall h | h in Names(root, chunks) ensures Claims(s.ix, h) > 0 && h in s.ix.disk {
      StoredIsClaimed(s, id, h);
      ClaimedStaysOnDisk(s, id, h);
    }
    SetBelowList(w.claims);
  }

  lemma PublishKeeps(s: System, id: int, root: Hash, size: nat, chunks: seq<Hash>, now: int)
    requires Inv(s) && id in s.writers && Ready(s.writers[id], root, chunks, size) && Extends(s.ix, root, chunks)
    ensures var t := MarkOwned(s.ix, root, size, chunks, s.writers[id].claims, now);
      IxInv(t) && KeepsWanted(s.ix, t) && t.disk == s.ix.disk
  {
    var hs := s.writers[id].claims;
    ReadyMeans(s, id, root, chunks, size);
    var m := if root in s.ix.sets
             then s.ix.sets[root].(owned := true, size := size, chunks := chunks, lastAccess := now)
             else Meta(true, size, chunks, now, now, "");
    RecordKeeps(s.ix, root, m);
    RecordFacts(s.ix, root, m);
    HandOverKeeps(Record(s.ix, root, m), hs);
    ReleaseFacts(Record(s.ix, root, m), hs, false);
  }

  lemma AddHostedKeeps(s: Index, mid: Index, root: Hash, size: nat, chunks: seq<Hash>, from: string, now: int)
    requires IxInv(mid) && KeepsWanted(s, mid) && Recordable(mid, root, size, chunks)
    requires root in mid.sets ==> mid.sets[root].chunks == chunks
    ensures var t := AddHosted(mid, root, size, chunks, from, now);
      && IxInv(t) && KeepsWanted(s, t) && t.disk == mid.disk
      && root in t.sets && t.sets[root].chunks == chunks
  {
    if root in mid.sets {
      var t := Touch(mid, root, now);
      TouchKeeps(mid, root, now);
      assert forall h :: Refs(t, h) == Refs(mid, h) && Claims(t, h) == Claims(mid, h);
    } else {
      var m := Meta(false, size, chunks, now, now, from);
      RecordKeeps(mid, root, m);
      RecordFacts(mid, root, m);
    }
  }

  /** Recording a hosted set after the eviction pass: the pass cannot have taken any of the writer's blobs. */
  lemma HostKeeps(s: Index, mid: Index, root: Hash, size: nat, chunks: seq<Hash>, from: string, hs: seq<Hash>, now: int)
    requires IxInv(mid) && KeepsWanted(s, mid)
    requires Recordable(mid, root, size, chunks) && forall h :: h in hs ==> h in Names(root, chunks)
    requires root in mid.sets ==> mid.sets[root].chunks == chunks
    ensures var t := ReleaseClaims(AddHosted(mid, root, size, chunks, from, now), hs, false);
      IxInv(t) && KeepsWanted(s, t) && t.disk == mid.disk
  {
    var added := AddHosted(mid, root, size, chunks, from, now);
    AddHostedKeeps(s, mid, root, size, chunks, from, now);
    forall h | h in hs ensures Refs(added, h) != {} {
      assert Names'(added, root, h);
      assert root in Refs(added, h);
    }
    HandOverKeeps(added, hs);
    ReleaseFacts(added, hs, false);
  }

  /** Reservations are no part of the index's invariant. */
  lemma ReservedKeeps(s: Index, reserved: nat)
    requires IxInv(s)
    ensures var t := s.(reserved := reserved);
      IxInv(t) && KeepsWanted(s, t) && forall h :: Claims(t, h) == Claims(s, h) && Refs(t, h) == Refs(s, h)
  {
    var t := s.(reserved := reserved);
    assert forall r, k :: Names'(t, r, k) <==> Names'(s, r, k);
    assert forall k :: Claims(t, k) == Claims(s, k) && Refs(t, k) == Refs(s, k);
  }

  lemma CommitKeeps(s: System, id: int, root: Hash, chunks: seq<Hash>, from: string, q: Request,
                    victims: seq<Hash>, ok: bool)
    requires Inv(s) && id in s.writers && Ready(s.writers[id], root, chunks, q.size)
    requires ok ==> Agrees(s.ix, root, chunks)
    ensures var t := Commit(s.ix, root, q.size, chunks, from, victims, ok, s.writers[id].claims, q.now);
      IxInv(t) && KeepsWanted(s.ix, t)
  {
    ReadyMeans(s, id, root, chunks, q.size);
    var s0 := Unreserve(s.ix, q.size);
    ReservedKeeps(s.ix, Unreserve(s.ix, q.size).reserved);
    EvictAllKeeps(s0, victims);
    var mid := EvictAll(s0, victims);
    EvictAllSets(s0, victims);
    if ok {
      HostKeeps(s.ix, mid, root, q.size, chunks, from, s.writers[id].claims, q.now);
    }
  }

  // ---------------------------------------------------------------- one step

  /** The actions that touch claims, blobs or promises only. */
  predicate Quiet(a: Action) {
    !a.Publish? && !a.CommitPush? && !a.Discard? && !a.Admit?
  }

  lemma QuietIndex(budget: int, s: System, a: Action)
    requires Inv(s) && Enabled(budget, s, a) && Quiet(a)
    ensures IxInv(Apply(budget, s, a).ix) && KeepsWanted(s.ix, Apply(budget, s, a).ix)
  {
    match a
    case Begin(id) =>
    case Claim(id, h) => AddClaimKeeps(s.ix, h);
    case Put(id, h) =>
      ClaimedStaysOnDisk(s, id, h);
      PutKeeps(s.ix, h);
    case Reserve(id, q) => ReservedKeeps(s.ix, s.ix.reserved + q.size);
    case Release(id) => ReservedKeeps(s.ix, Unreserve(s.ix, s.writers[id].promise.value).reserved);
    case TouchSet(root, now) => TouchKeeps(s.ix, root, now);
  }

  /** The index half of the invariant, and what one action may delete. */
  lemma StepIndex(budget: int, s: System, a: Action, t: Index)
    requires Inv(s) && Enabled(budget, s, a) && t == Apply(budget, s, a).ix
    ensures IxInv(t) && KeepsWanted(s.ix, t)
  {
    match a
    case Discard(id) => DiscardKeeps(s.ix, s.writers[id].claims);
    case Publish(id, root, size, chunks, now) => PublishKeeps(s, id, root, size, chunks, now);
    case CommitPush(id, root, chunks, from, q, victims, ok) => CommitKeeps(s, id, root, chunks, from, q, victims, ok);
    case Admit(q, victims, ok) => EvictAllKeeps(s.ix, victims);
    case _ => QuietIndex(budget, s, a);
  }

  lemma ClaimCounted(s: System, id: int, h: Hash)
    requires Counted(s) && id in s.writers
    ensures Counted(System(AddClaim(s.ix, h), s.writers[id := s.writers[id].(claims := s.writers[id].claims + [h])]))
  {
    var w := s.writers[id].(claims := s.writers[id].claims + [h]);
    forall k ensures Claims(AddClaim(s.ix, h), k) == AllClaims(s.writers[id := w], k) {
      WriterUpdate(s.writers, id, w, k);
      assert multiset(w.claims)[k] == multiset(s.writers[id].claims)[k] + if k == h then 1 else 0;
    }
  }

  /** A writer that drops all its claims leaves exactly those of the others. */
  lemma DropCounted(s: System, id: int, w: Writer, t: Index)
    requires Counted(s) && id in s.writers && w.claims == []
    requires forall h :: Claims(t, h) == LeftOver(s.ix, s.writers[id].claims, h)
    ensures Counted(System(t, s.writers[id := w]))
  {
    forall h ensures Claims(t, h) == AllClaims(s.writers[id := w], h) {
      WriterUpdate(s.writers, id, w, h);
      WriterShare(s.writers, id, h);
    }
  }

  lemma SameCounted(s: System, id: int, w: Writer, t: Index)
    requires Counted(s) && id in s.writers && w.claims == s.writers[id].claims
    requires forall h :: Claims(t, h) == Claims(s.ix, h)
    ensures Counted(System(t, s.writers[id := w]))
  {
    forall h ensures Claims(t, h) == AllClaims(s.writers[id := w], h) {
      WriterUpdate(s.writers, id, w, h);
    }
  }

  lemma MarkOwnedClaims(s: Index, root: Hash, size: nat, chunks: seq<Hash>, hs: seq<Hash>, now: int)
    ensures forall h :: Claims(MarkOwned(s, root, size, chunks, hs, now), h) == LeftOver(s, hs, h)
  {
    var m := if root in s.sets then s.sets[root].(owned := true, size := size, chunks := chunks, lastAccess := now)
             else Meta(true, size, chunks, now, now, "");
    var r := Record(s, root, m);
    RecordFacts(s, root, m);
    ReleaseFacts(r, hs, false);
    assert forall h :: LeftOver(r, hs, h) == LeftOver(s, hs, h);
  }

  lemma CommitClaims(s: Index, root: Hash, size: nat, chunks: seq<Hash>, from: string, victims: seq<Hash>, ok: bool,
                     hs: seq<Hash>, now: int)
    ensures var t := Commit(s, root, size, chunks, from, victims, ok, hs, now);
      forall h :: Claims(t, h) == if ok then LeftOver(s, hs, h) else Claims(s, h)
  {
    var mid := EvictAll(Unreserve(s, size), victims);
    EvictAllSets(Unreserve(s, size), victims);
    if ok {
      var added := AddHosted(mid, root, size, chunks, from, now);
      assert added.pending == s.pending;
      ReleaseFacts(added, hs, false);
      assert forall h :: LeftOver(added, hs, h) == LeftOver(s, hs, h);
    }
  }

  lemma StepCounted(budget: int, s: System, a: Action)
    requires Inv(s) && Possible(budget, s, a)
    ensures Counted(Apply(budget, s, a))
  {
    match a
    case Begin(id) =>
      forall h { WriterAdded(s.writers, id, Writer([], [], None), h); }
    case Claim(id, h) => ClaimCounted(s, id, h);
    case Put(id, h) =>
      assert forall k :: Claims(PutBlob(s.ix, h), k) == Claims(s.ix, k);
      SameCounted(s, id, s.writers[id].(stored := s.writers[id].stored + [h]), PutBlob(s.ix, h));
    case Discard(id) =>
      ReleaseFacts(s.ix, s.writers[id].claims, true);
      DropCounted(s, id, s.writers[id].(claims := [], stored := []), ReleaseClaims(s.ix, s.writers[id].claims, true));
    case Publish(id, root, size, chunks, now) =>
      MarkOwnedClaims(s.ix, root, size, chunks, s.writers[id].claims, now);
      DropCounted(s, id, Writer([], [], None), MarkOwned(s.ix, root, size, chunks, s.writers[id].claims, now));
    case Reserve(id, q) =>
      ReservedKeeps(s.ix, s.ix.reserved + q.size);
      SameCounted(s, id, Writer([], [], Some(q.size)), s.ix.(reserved := s.ix.reserved + q.size));
    case Release(id) =>
      ReservedKeeps(s.ix, Unreserve(s.ix, s.writers[id].promise.value).reserved);
      SameCounted(s, id, s.writers[id].(promise := None), Unreserve(s.ix, s.writers[id].promise.value));
    case CommitPush(id, root, chunks, from, q, victims, ok) =>
      CommitCounted(s, id, root, chunks, from, q, victims, ok);
    case Admit(q, victims, ok) =>
      EvictAllKeeps(s.ix, victims);
    case TouchSet(root, now) =>
      assert forall h :: Claims(Touch(s.ix, root, now), h) == Claims(s.ix, h);
  }

  lemma CommitCounted(s: System, id: int, root: Hash, chunks: seq<Hash>, from: string, q: Request,
                      victims: seq<Hash>, ok: bool)
    requires Counted(s) && id in s.writers
    ensures Counted(System(Commit(s.ix, root, q.size, chunks, from, victims, ok, s.writers[id].claims, q.now),
                    s.writers[id := if ok then Writer([], [], None) else s.writers[id].(promise := None)]))
  {
    var hs := s.writers[id].claims;
    CommitClaims(s.ix, root, q.size, chunks, from, victims, ok, hs, q.now);
    var t := Commit(s.ix, root, q.size, chunks, from, victims, ok, hs, q.now);
    if ok {
      DropCounted(s, id, Writer([], [], None), t);
    } else {
      SameCounted(s, id, s.writers[id].(promise := None), t);
    }
  }

  /** What a writer had written and still claims is still there after the step, whoever took it. */
  lemma StoredSurvives(s: System, t: System, id: int, h: Hash)
    requires Counted(t) && KeepsWanted(s.ix, t.ix) && h in s.ix.disk
    requires id in t.writers && h in t.writers[id].claims
    ensures h in t.ix.disk
  {
    ClaimedStaysOnDisk(t, id, h);
  }

  /** A blob in a writer's record was there before the step or has just been written. */
  lemma StoredBefore(budget: int, s: System, a: Action, id: int, h: Hash)
    requires StoredOnDisk(s) && Possible(budget, s, a)
    requires var t := Apply(budget, s, a); id in t.writers && h in t.writers[id].stored
    ensures h in Apply(budget, s, a).writers[id].claims
    ensures (id in s.writers && h in s.writers[id].stored) || (a.Put? && h == a.h)
  {
    if id in s.writers && h in s.writers[id].stored {
      StoredIsClaimed(s, id, h);
    }
  }

  lemma StoredIsClaimed(s: System, id: int, h: Hash)
    requires StoredOnDisk(s) && id in s.writers && h in s.writers[id].stored
    ensures h in s.writers[id].claims && h in s.ix.disk
  {
    assert StoredAt(s, id, h);
  }

  /** What writers have written stays on disk through any action that keeps what is wanted. */
  lemma StoredKept(budget: int, s: System, a: Action, t: System)
    requires Inv(s) && Possible(budget, s, a) && t == Apply(budget, s, a) && KeepsWanted(s.ix, t.ix)
    ensures StoredOnDisk(t)
  {
    StepCounted(budget, s, a);
    forall id, h ensures StoredAt(t, id, h) {
      if id in t.writers && h in t.writers[id].stored {
        StoredBefore(budget, s, a, id, h);
        if id in s.writers && h in s.writers[id].stored {
          StoredIsClaimed(s, id, h);
          StoredSurvives(s, t, id, h);
        } else {
          assert t.ix == PutBlob(s.ix, h);
        }
      }
    }
  }

  lemma StepStored(budget: int, s: System, a: Action)
    requires Inv(s) && Enabled(budget, s, a)
    ensures StoredOnDisk(Apply(budget, s, a))
  {
    StepIndex(budget, s, a, Apply(budget, s, a).ix);
    StoredKept(budget, s, a, Apply(budget, s, a));
  }

  /** Every action of every writer keeps the invariant. */
  lemma StepKeepsInv(budget: int, s: System, a: Action)
    requires Inv(s) && Enabled(budget, s, a)
    ensures Inv(Apply(budget, s, a))
  {
    StepIndex(budget, s, a, Apply(budget, s, a).ix);
    StepCounted(budget, s, a);
    StepStored(budget, s, a);
  }

  predicate Records(a: Action) {
    a.Publish? || (a.CommitPush? && a.ok)
  }

  // ---------------------------------------------------------------- what holds of every step and every state

  /** A blob leaves the disk only when no live writer claims it and no indexed set names it. */
  lemma DeletedOnlyWhenUnwanted(budget: int, s: System, a: Action, h: Hash)
    requires Inv(s) && Enabled(budget, s, a)
    requires h in s.ix.disk && h !in Apply(budget, s, a).ix.disk
    ensures var t := Apply(budget, s, a);
      && (forall id :: id in t.writers ==> h !in t.writers[id].claims)
      && (forall r :: r in t.ix.sets ==> h !in Names(r, t.ix.sets[r].chunks))
  {
    var t := Apply(budget, s, a);
    StepKeepsInv(budget, s, a);
    StepIndex(budget, s, a, Apply(budget, s, a).ix);
    forall id | id in t.writers ensures h !in t.writers[id].claims {
      if h in t.writers[id].claims {
        ClaimedStaysOnDisk(t, id, h);
      }
    }
    forall r | r in t.ix.sets ensures h !in Names(r, t.ix.sets[r].chunks) {
      assert !Names'(t.ix, r, h);
    }
  }

  ghost predicate SameList(s: Index, t: Index, r: Hash) {
    r in s.sets && r in t.sets && t.sets[r].chunks == s.sets[r].chunks
  }

  lemma CommitLists(s: Index, root: Hash, size: nat, chunks: seq<Hash>, from: string, victims: seq<Hash>, ok: bool,
                    hs: seq<Hash>, now: int, t: Index, r: Hash)
    requires t == Commit(s, root, size, chunks, from, victims, ok, hs, now) && r in t.sets
    ensures SameList(s, t, r) || (ok && r == root && t.sets[r].chunks == chunks)
  {
    hide EvictAll;
    EvictAllSets(Unreserve(s, size), victims);
  }

  /** Where the chunk list of an indexed root comes from: it was there before, or this action recorded it. */
  lemma StepLists(budget: int, s: System, a: Action, t: Index, r: Hash)
    requires Possible(budget, s, a) && t == Apply(budget, s, a).ix && r in t.sets
    ensures SameList(s.ix, t, r) || (Records(a) && r == a.root && t.sets[r].chunks == a.chunks)
  {
    hide Commit, EvictAll, Fits, FitRun, WithinOffer, Ready;
    match a
    case CommitPush(id, root, chunks, from, q, victims, ok) =>
      CommitLists(s.ix, root, q.size, chunks, from, victims, ok, s.writers[id].claims, q.now, t, r);
    case Admit(q, victims, ok) => EvictAllSets(s.ix, victims);
    case _ =>
  }

  /** The actions that give the root a chunk list: a publish of it, and a commit whose own pass has just taken it. */
  predicate Relists(a: Action, r: Hash) {
    (a.Publish? && a.root == r) || (a.CommitPush? && a.ok && a.root == r && r in a.victims)
  }

  /** No other action changes the chunk list of a root that stays indexed, and in runs none drops a blob from it. */
  lemma ChunksKept(budget: int, s: System, a: Action, r: Hash)
    requires Possible(budget, s, a) && r in s.ix.sets && r in Apply(budget, s, a).ix.sets
    ensures Apply(budget, s, a).ix.sets[r].chunks == if Relists(a, r) then a.chunks else s.ix.sets[r].chunks
    ensures Concordant(s.ix, a) ==> Names(r, s.ix.sets[r].chunks) <= Names(r, Apply(budget, s, a).ix.sets[r].chunks)
  {
    hide Commit, EvictAll, Fits, FitRun, WithinOffer, Ready;
    match a
    case CommitPush(id, root, chunks, from, q, victims, ok) =>
      EvictAllSets(Unreserve(s.ix, q.size), victims);
      CommitList(s.ix, root, q.size, chunks, from, victims, ok, s.writers[id].claims, q.now, r);
    case Admit(q, victims, ok) => EvictAllSets(s.ix, victims);
    case _ =>
  }

  lemma CommitList(s: Index, root: Hash, size: nat, chunks: seq<Hash>, from: string, victims: seq<Hash>, ok: bool,
                   hs: seq<Hash>, now: int, r: Hash)
    requires r in s.sets && r in Commit(s, root, size, chunks, from, victims, ok, hs, now).sets
    ensures Commit(s, root, size, chunks, from, victims, ok, hs, now).sets[r].chunks
         == if ok && r == root && r in victims then chunks else s.sets[r].chunks
  {
    hide EvictAll;
    EvictAllSets(Unreserve(s, size), victims);
  }

  /** A set is whole when it is recorded. */
  lemma RecordedWhole(budget: int, s: System, a: Action)
    requires Inv(s) && Enabled(budget, s, a) && Records(a)
    ensures var t := Apply(budget, s, a);
      Whole(t.ix, a.root) && t.ix.sets[a.root].chunks == a.chunks
  {
    match a
    case Publish(id, root, size, chunks, now) =>
      ReadyMeans(s, id, root, chunks, size);
      PublishKeeps(s, id, root, size, chunks, now);
    case CommitPush(id, root, chunks, from, q, victims, ok) =>
      ReadyMeans(s, id, root, chunks, q.size);
      CommitSets(s, id, root, chunks, from, q, victims);
  }

  lemma CommitSets(s: System, id: int, root: Hash, chunks: seq<Hash>, from: string, q: Request, victims: seq<Hash>)
    requires Inv(s) && id in s.writers && Ready(s.writers[id], root, chunks, q.size) && Agrees(s.ix, root, chunks)
    ensures var t := Commit(s.ix, root, q.size, chunks, from, victims, true, s.writers[id].claims, q.now);
      Whole(t, root) && t.sets[root].chunks == chunks
  {
    var s0 := Unreserve(s.ix, q.size);
    ReadyMeans(s, id, root, chunks, q.size);
    ReservedKeeps(s.ix, Unreserve(s.ix, q.size).reserved);
    EvictAllKeeps(s0, victims);
    var mid := EvictAll(s0, victims);
    EvictAllSets(s0, victims);
    AddHostedKeeps(s.ix, mid, root, q.size, chunks, from, q.now);
    ReleaseFacts(AddHosted(mid, root, q.size, chunks, from, q.now), s.writers[id].claims, false);
  }

  /** A set that is whole stays whole for as long as it stays indexed. */
  lemma WholeStaysWhole(budget: int, s: System, a: Action, r: Hash)
    requires Inv(s) && Enabled(budget, s, a) && Whole(s.ix, r) && r in Apply(budget, s, a).ix.sets
    ensures Whole(Apply(budget, s, a).ix, r)
  {
    if a.Publish? && a.root == r {
      RecordedWhole(budget, s, a);
    } else {
      StepIndex(budget, s, a, Apply(budget, s, a).ix);
      ChunksKept(budget, s, a, r);
      WholeKept(s.ix, Apply(budget, s, a).ix, r);
    }
  }

  predicate Owned(s: System, r: Hash) {
    r in s.ix.sets && s.ix.sets[r].owned
  }

  lemma OwnedSurvivesRun(sets: map<Hash, Meta>, reserved: nat, q: Request, vs: seq<Hash>, r: Hash)
    requires VictimRun(sets, reserved, q, vs) && r in sets && sets[r].owned
    ensures r !in vs
  {
    forall i | 0 <= i < |vs| ensures vs[i] != r {
      VictimAt(sets, reserved, q, vs, i);
      var left := Minus(sets, vs[..i]);
      assert !left[vs[i]].owned && left[vs[i]] == sets[vs[i]];
    }
  }

  lemma OwnedSurvivesPass(s: Index, reserved: nat, q: Request, victims: seq<Hash>, ok: bool, r: Hash)
    requires FitRun(s.sets, reserved, q, victims, ok) && r in s.sets && s.sets[r].owned
    ensures r in EvictAll(s, victims).sets && EvictAll(s, victims).sets[r].owned
  {
    if !TooLarge(q) {
      OwnedSurvivesRun(s.sets, reserved, q, victims, r);
    }
    EvictAllSets(s, victims);
  }

  /** Owned sets are never evicted. */
  lemma OwnedIsKept(budget: int, s: System, a: Action, r: Hash)
    requires Enabled(budget, s, a) && Owned(s, r)
    ensures Owned(Apply(budget, s, a), r)
  {
    match a
    case CommitPush(id, root, chunks, from, q, victims, ok) =>
      OwnedSurvivesPass(Unreserve(s.ix, q.size), Unreserve(s.ix, q.size).reserved, q, victims, ok, r);
    case Admit(q, victims, ok) =>
      OwnedSurvivesPass(s.ix, s.ix.reserved, q, victims, ok, r);
    case _ =>
  }
}
