/** Bytes over the runs of a content index: what is on disk is accounted for, and the hosting budget is kept
    (internal/content/contentindex.go). */
module ContentTotals {
  import opened Bytes
  import opened Content
  import opened Sums
  import opened IndexModel
  import opened IndexInvariant
  import opened ContentRuns

  // ---------------------------------------------------------------- disk conservation

  ghost function DiskBytes(s: System): nat {
    Sum(s.ix.disk.Keys, Weight)
  }

  function DeclaredSize(sets: map<Hash, Meta>, r: Hash): nat {
    if r in sets then sets[r].size else 0
  }

  ghost function IndexedBytes(s: System): nat {
    Sum(s.ix.sets.Keys, r => DeclaredSize(s.ix.sets, r))
  }

  function InFlight(ws: map<int, Writer>, id: int): nat {
    if id in ws then ListWeight(ws[id].claims) else 0
  }

  ghost function AcceptedBytes(s: System): nat {
    Sum(s.writers.Keys, id => InFlight(s.writers, id))
  }

  function NamesOf(sets: map<Hash, Meta>, r: Hash): set<Hash> {
    if r in sets then Names(r, sets[r].chunks) else {}
  }

  function ClaimsOf(ws: map<int, Writer>, id: int): set<Hash> {
    if id in ws then Elems(ws[id].claims) else {}
  }

  ghost predicate Indexed(s: System, h: Hash) {
    exists r :: Names'(s.ix, r, h)
  }

  lemma IndexedWeight(s: System, hs: set<Hash>)
    requires Inv(s) && forall h :: h in hs ==> Indexed(s, h)
    ensures Sum(hs, Weight) <= IndexedBytes(s)
  {
    var part, w := r => NamesOf(s.ix.sets, r), r => DeclaredSize(s.ix.sets, r);
    forall h | h in hs ensures exists r :: r in s.ix.sets.Keys && h in part(r) {
      var r :| Names'(s.ix, r, h);
      assert r in s.ix.sets.Keys && h in part(r);
    }
    SumCover(hs, Weight, s.ix.sets.Keys, part, w);
  }

  lemma ClaimedWeight(s: System, hs: set<Hash>)
    requires Inv(s) && forall h :: h in hs ==> Claims(s.ix, h) > 0
    ensures Sum(hs, Weight) <= AcceptedBytes(s)
  {
    var part, w := id => ClaimsOf(s.writers, id), id => InFlight(s.writers, id);
    forall h | h in hs ensures exists id :: id in s.writers.Keys && h in part(id) {
      var id := SomeClaimant(s.writers.Keys, s.writers, h);
      assert id in s.writers.Keys && h in part(id);
    }
    forall id | id in s.writers.Keys ensures Sum(part(id), Weight) <= w(id) {
      SetBelowList(s.writers[id].claims);
    }
    SumCover(hs, Weight, s.writers.Keys, part, w);
  }

  lemma NamedIsIndexed(s: System, h: Hash)
    requires RefsExact(s.ix) && Refs(s.ix, h) != {}
    ensures Indexed(s, h)
  {
    var r :| r in Refs(s.ix, h);
    assert Names'(s.ix, r, h);
  }

  /** The disk never holds more than the indexed sets declare plus what live writers have accepted. */
  lemma DiskConservation(s: System)
    requires Inv(s)
    ensures DiskBytes(s) <= IndexedBytes(s) + AcceptedBytes(s)
  {
    var named := set h | h in s.ix.disk && Refs(s.ix, h) != {};
    var rest := s.ix.disk.Keys - named;
    forall h | h in named {
      NamedIsIndexed(s, h);
    }
    IndexedWeight(s, named);
    ClaimedWeight(s, rest);
    assert s.ix.disk.Keys == named + rest;
    SumUnion(named, rest, Weight);
  }

  // ---------------------------------------------------------------- the hosting budget

  function PromiseOf(ws: map<int, Writer>, id: int): nat {
    if id in ws && ws[id].promise.Some? then ws[id].promise.value else 0
  }

  /** All bytes promised to transfers that have not ended. */
  ghost function Promised(ws: map<int, Writer>): nat {
    Sum(ws.Keys, id => PromiseOf(ws, id))
  }

  /** The reservations are exactly the outstanding promises, and neither they nor the stored hosted sets exceed
      the budget. */
  ghost predicate WithinBudget(budget: int, s: System) {
    s.ix.reserved == Promised(s.writers) && s.ix.reserved <= budget && Hosted(s.ix.sets) <= budget
  }

  lemma PromiseUpdate(ws: map<int, Writer>, id: int, w: Writer)
    requires id in ws
    ensures Promised(ws[id := w]) + PromiseOf(ws, id) == Promised(ws) + PromiseOf(ws[id := w], id)
    ensures PromiseOf(ws, id) <= Promised(ws)
  {
    var us := ws[id := w];
    assert us.Keys == ws.Keys;
    SumUpdate(ws.Keys, id, i => PromiseOf(ws, i), i => PromiseOf(us, i));
    SumRemove(ws.Keys, id, i => PromiseOf(ws, i));
  }

  lemma PromiseAdded(ws: map<int, Writer>, id: int, w: Writer)
    requires id !in ws && w.promise.None?
    ensures Promised(ws[id := w]) == Promised(ws)
  {
    var us := ws[id := w];
    assert us.Keys == ws.Keys + {id};
    SumAdd(ws.Keys, id, i => PromiseOf(us, i));
    SumSame(ws.Keys, i => PromiseOf(ws, i), i => PromiseOf(us, i));
  }

  lemma HostedUpdate(sets: map<Hash, Meta>, r: Hash, m: Meta)
    ensures Hosted(sets[r := m]) + HostedSize(sets, r) == Hosted(sets) + if m.owned then 0 else m.size
  {
    var to := sets[r := m];
    HostedSplit(to, r);
    assert to - {r} == sets - {r};
    if r in sets {
      HostedSplit(sets, r);
    } else {
      assert sets - {r} == sets;
    }
  }

  lemma HostedShrinks(sets: map<Hash, Meta>, vs: seq<Hash>)
    ensures Hosted(Minus(sets, vs)) <= Hosted(sets)
  {
    var to := Minus(sets, vs);
    SumSubset(to.Keys, sets.Keys, r => HostedSize(sets, r));
    SumSame(to.Keys, r => HostedSize(sets, r), r => HostedSize(to, r));
  }

  lemma HostedAfterAdd(s: Index, root: Hash, size: nat, chunks: seq<Hash>, from: string, hs: seq<Hash>, now: int)
    ensures var t := ReleaseClaims(AddHosted(s, root, size, chunks, from, now), hs, false);
      && t.reserved == s.reserved
      && Hosted(t.sets) == Hosted(s.sets) + if root in s.sets then 0 else size
  {
    if root in s.sets {
      HostedUpdate(s.sets, root, s.sets[root].(lastAccess := now));
    } else {
      HostedUpdate(s.sets, root, Meta(false, size, chunks, now, now, from));
    }
  }

  /** A commit that records a new set leaves hosted plus promised bytes within the budget; any commit keeps both
      within it and consumes the promise whole. */
  lemma CommitWithinBudget(budget: int, s: System, id: int, root: Hash, chunks: seq<Hash>, from: string, q: Request,
                           victims: seq<Hash>, ok: bool)
    requires WithinBudget(budget, s) && Enabled(budget, s, CommitPush(id, root, chunks, from, q, victims, ok))
    ensures var t := Apply(budget, s, CommitPush(id, root, chunks, from, q, victims, ok));
      && WithinBudget(budget, t) && t.ix.reserved == s.ix.reserved - q.size
      && (ok && root !in EvictAll(s.ix, victims).sets ==> Hosted(t.ix.sets) + t.ix.reserved <= budget)
  {
    var s0 := Unreserve(s.ix, q.size);
    EvictAllSets(s0, victims);
    EvictAllSets(s.ix, victims);
    HostedShrinks(s.ix.sets, victims);
    var hs := s.writers[id].claims;
    if ok {
      PromiseUpdate(s.writers, id, Writer([], [], None));
      HostedAfterAdd(EvictAll(s0, victims), root, q.size, chunks, from, hs, q.now);
    } else {
      PromiseUpdate(s.writers, id, s.writers[id].(promise := None));
    }
  }

  lemma PublishWithinBudget(budget: int, s: System, id: int, root: Hash, size: nat, chunks: seq<Hash>, now: int)
    requires WithinBudget(budget, s) && Enabled(budget, s, Publish(id, root, size, chunks, now))
    ensures WithinBudget(budget, Apply(budget, s, Publish(id, root, size, chunks, now)))
  {
    var m := if root in s.ix.sets
             then s.ix.sets[root].(owned := true, size := size, chunks := chunks, lastAccess := now)
             else Meta(true, size, chunks, now, now, "");
    HostedUpdate(s.ix.sets, root, m);
    PromiseUpdate(s.writers, id, Writer([], [], None));
  }

  lemma TouchHosted(s: Index, root: Hash, now: int)
    ensures Hosted(Touch(s, root, now).sets) == Hosted(s.sets)
  {
    if root in s.sets {
      HostedUpdate(s.sets, root, s.sets[root].(lastAccess := now));
    }
  }

  lemma StepWithinBudget(budget: int, s: System, a: Action)
    requires WithinBudget(budget, s) && Enabled(budget, s, a)
    ensures WithinBudget(budget, Apply(budget, s, a))
  {
    match a
    case Begin(id) => PromiseAdded(s.writers, id, Writer([], [], None));
    case Claim(id, h) => PromiseUpdate(s.writers, id, s.writers[id].(claims := s.writers[id].claims + [h]));
    case Put(id, h) => PromiseUpdate(s.writers, id, s.writers[id].(stored := s.writers[id].stored + [h]));
    case Discard(id) => PromiseUpdate(s.writers, id, s.writers[id].(claims := [], stored := []));
    case Publish(id, root, size, chunks, now) => PublishWithinBudget(budget, s, id, root, size, chunks, now);
    case Reserve(id, q) => PromiseUpdate(s.writers, id, Writer([], [], Some(q.size)));
    case Release(id) => PromiseUpdate(s.writers, id, s.writers[id].(promise := None));
    case CommitPush(id, root, chunks, from, q, victims, ok) =>
      CommitWithinBudget(budget, s, id, root, chunks, from, q, victims, ok);
    case Admit(q, victims, ok) =>
      EvictAllSets(s.ix, victims);
      HostedShrinks(s.ix.sets, victims);
    case TouchSet(root, now) => TouchHosted(s.ix, root, now);
  }
}
