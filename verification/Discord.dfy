/** What becomes of the index when a set is recorded over its root held with another chunk list: exactly when the
    invariant survives, and how the code gets there (internal/content/contentindex.go, internal/node/contentnet.go,
    internal/node/replicate.go). */
module Discord {
  import opened Bytes
  import opened Content
  import opened IndexModel
  import opened IndexInvariant
  import opened ContentRuns
  import opened Chunking
  import opened Transfers
  import opened Publishing
  import opened PushProtocol
  import EndToEnd
  import TransfersInRuns
  import Sums

  // ---------------------------------------------------------------- exactly when the invariant survives

  /** Some set that the pass leaves indexed names the blob. */
  ghost predicate StillNamed(s: Index, victims: seq<Hash>, h: Hash) {
    exists r :: r in s.sets && r !in victims && h in Names(r, s.sets[r].chunks)
  }

  /** A publish has to carry every blob of the set it replaces; a commit over a root that stays held has to find each
      of its chunks claimed by others or named by a set that stays. */
  ghost predicate Harmless(s: System, a: Action) {
    match a
    case Publish(id, root, size, chunks, now) => Extends(s.ix, root, chunks)
    case CommitPush(id, root, chunks, from, q, victims, ok) =>
      ok && root in s.ix.sets && root !in victims && id in s.writers ==>
        forall h :: h in chunks ==> LeftOver(s.ix, s.writers[id].claims, h) > 0 || StillNamed(s.ix, victims, h)
    case _ => true
  }

  lemma HandedOver(u: Index, hs: seq<Hash>)
    requires IxInv(u)
    ensures var t := ReleaseClaims(u, hs, false);
      (IxInv(t) <==> NoOrphans(t)) && (NoOrphans(t) <==> Unwanted(u, hs) !! u.disk.Keys)
  {
    ReleaseFacts(u, hs, false);
    HandOverExactly(u, hs);
  }

  /** Recording a set as owned keeps the references exact exactly when it carries every blob of the set that it
      replaces. */
  lemma MarkExactly(s: Index, root: Hash, size: nat, chunks: seq<Hash>, hs: seq<Hash>, now: int)
    requires RefsExact(s)
    ensures var t := MarkOwned(s, root, size, chunks, hs, now);
      KeepsWanted(s, t) && (RefsExact(t) <==> Extends(s, root, chunks))
  {
    var m := if root in s.sets then s.sets[root].(owned := true, size := size, chunks := chunks, lastAccess := now)
             else Meta(true, size, chunks, now, now, "");
    var u := Record(s, root, m);
    RecordKeepsRefsExactly(s, root, m);
    RecordFacts(s, root, m);
    ReleaseFacts(u, hs, false);
    SameRefs(u, ReleaseClaims(u, hs, false));
    NamesExtend(s, root, chunks);
  }

  lemma NamesExtend(s: Index, root: Hash, chunks: seq<Hash>)
    ensures Extends(s, root, chunks) <==> (root in s.sets ==> Names(root, s.sets[root].chunks) <= Names(root, chunks))
  {
    if root in s.sets && Names(root, s.sets[root].chunks) <= Names(root, chunks) {
      forall h | h in s.sets[root].chunks ensures h == root || h in chunks {
        assert h in Names(root, s.sets[root].chunks);
      }
    }
  }

  lemma PublishExactly(s: System, id: int, root: Hash, size: nat, chunks: seq<Hash>, now: int, t: Index)
    requires Inv(s) && id in s.writers && Ready(s.writers[id], root, chunks, size)
    requires t == MarkOwned(s.ix, root, size, chunks, s.writers[id].claims, now)
    ensures KeepsWanted(s.ix, t) && (IxInv(t) <==> Extends(s.ix, root, chunks))
  {
    hide MarkOwned, Ready;
    MarkExactly(s.ix, root, size, chunks, s.writers[id].claims, now);
    if Extends(s.ix, root, chunks) {
      PublishKeeps(s, id, root, size, chunks, now);
    }
  }

  lemma SameRefs(u: Index, t: Index)
    requires (forall k :: Refs(t, k) == Refs(u, k)) && forall r, k :: Names'(t, r, k) <==> Names'(u, r, k)
    ensures RefsExact(t) <==> RefsExact(u)
  {
  }

  /** The pass leaves exactly the sets that are no victims, and all that claims protect. */
  lemma AfterPass(s: Index, size: nat, victims: seq<Hash>, mid: Index)
    requires IxInv(s) && mid == EvictAll(Unreserve(s, size), victims)
    ensures IxInv(mid) && KeepsWanted(s, mid) && mid.pending == s.pending
    ensures forall r :: r in mid.sets <==> r in s.sets && r !in victims
    ensures forall r :: r in mid.sets ==> mid.sets[r] == s.sets[r]
  {
    hide IxInv, KeepsWanted;
    var s0 := Unreserve(s, size);
    ReservedKeeps(s, s0.reserved);
    EvictAllKeeps(s0, victims);
    EvictAllSets(s0, victims);
    KeepsThrough(s, s0, mid);
  }

  lemma KeepsThrough(s: Index, s0: Index, mid: Index)
    requires s0.disk == s.disk && KeepsWanted(s0, mid)
    ensures KeepsWanted(s, mid)
  {
  }

  lemma NamedExactly(s: Index, victims: seq<Hash>, u: Index, h: Hash)
    requires RefsExact(u) && (forall r :: r in u.sets <==> r in s.sets && r !in victims)
    requires forall r :: r in u.sets ==> u.sets[r].chunks == s.sets[r].chunks
    ensures Refs(u, h) != {} <==> StillNamed(s, victims, h)
  {
    if Refs(u, h) != {} {
      var r :| r in Refs(u, h);
      assert Names'(u, r, h);
    }
    if StillNamed(s, victims, h) {
      var r :| r in s.sets && r !in victims && h in Names(r, s.sets[r].chunks);
      assert Names'(u, r, h);
    }
  }

  /** Nothing on disk is left unspoken for exactly when each dropped claim was not the last or a set still names it. */
  lemma DroppedExactly(s: Index, victims: seq<Hash>, u: Index, hs: seq<Hash>)
    requires forall h :: h in hs ==> h in u.disk
    requires forall h :: Claims(u, h) == Claims(s, h)
    requires forall h :: Refs(u, h) != {} <==> StillNamed(s, victims, h)
    ensures Unwanted(u, hs) !! u.disk.Keys
       <==> forall h :: h in hs ==> LeftOver(s, hs, h) > 0 || StillNamed(s, victims, h)
  {
    hide StillNamed, Refs;
    assert forall h :: LeftOver(u, hs, h) == LeftOver(s, hs, h);
    assert forall h :: h in Unwanted(u, hs) <==> h in hs && LeftOver(u, hs, h) == 0 && Refs(u, h) == {};
  }

  /** The index between the pass and the hand-over, when the root is still held. */
  lemma HeldTouched(s: Index, root: Hash, size: nat, victims: seq<Hash>, now: int, u: Index, hs: seq<Hash>)
    requires IxInv(s) && root in s.sets && root !in victims
    requires u == Touch(EvictAll(Unreserve(s, size), victims), root, now)
    requires forall h :: h in hs ==> h in s.disk && Claims(s, h) > 0
    ensures IxInv(u) && KeepsWanted(s, ReleaseClaims(u, hs, false))
    ensures forall h :: h in hs ==> h in u.disk
    ensures forall h :: Claims(u, h) == Claims(s, h)
    ensures forall h :: Refs(u, h) != {} <==> StillNamed(s, victims, h)
  {
    hide EvictAll, NoOrphans, Faithful, Measured, StillNamed, ReleaseClaims, Unreserve;
    var mid := EvictAll(Unreserve(s, size), victims);
    AfterPass(s, size, victims, mid);
    TouchKeeps(mid, root, now);
    assert forall h :: Claims(mid, h) == Claims(s, h);
    TouchedWanted(s, mid, u, hs);
    forall h ensures Refs(u, h) != {} <==> StillNamed(s, victims, h) {
      NamedExactly(s, victims, u, h);
    }
  }

  /** A commit over a root that stays held leaves no orphan exactly when each chunk it hands over is claimed by
      somebody else or named by a set that stays. */
  lemma CommitExactly(s: System, id: int, root: Hash, chunks: seq<Hash>, size: nat, from: string, victims: seq<Hash>,
                      now: int)
    requires Inv(s) && id in s.writers && Ready(s.writers[id], root, chunks, size)
    requires root in s.ix.sets && root !in victims
    ensures var t := Commit(s.ix, root, size, chunks, from, victims, true, s.writers[id].claims, now);
      && KeepsWanted(s.ix, t) && (IxInv(t) <==> NoOrphans(t))
      && (NoOrphans(t) <==> forall h :: h in chunks ==>
            LeftOver(s.ix, s.writers[id].claims, h) > 0 || StillNamed(s.ix, victims, h))
  {
    hide EvictAll, Ready, RefsExact, NoOrphans, Faithful, Measured, KeepsWanted, Touch, ReleaseClaims, LeftOver,
         AddHosted;
    var hs := s.writers[id].claims;
    ReadyMeans(s, id, root, chunks, size);
    var u := Touch(EvictAll(Unreserve(s.ix, size), victims), root, now);
    AddHeld(s.ix, root, size, chunks, from, victims, now);
    HeldTouched(s.ix, root, size, victims, now, u, hs);
    HandedOver(u, hs);
    DroppedExactly(s.ix, victims, u, hs);
    assert StillNamed(s.ix, victims, root) by {
      assert root in Names(root, s.ix.sets[root].chunks);
    }
  }

  lemma TouchedWanted(s: Index, mid: Index, u: Index, hs: seq<Hash>)
    requires KeepsWanted(s, mid) && u.disk == mid.disk
    requires forall h :: Claims(u, h) == Claims(mid, h) && Refs(u, h) == Refs(mid, h)
    ensures KeepsWanted(s, ReleaseClaims(u, hs, false))
  {
    ReleaseFacts(u, hs, false);
  }

  /** A root that the pass has taken, or that was not held, is recorded afresh. */
  lemma FreshCommit(s: System, id: int, root: Hash, chunks: seq<Hash>, size: nat, from: string, victims: seq<Hash>,
                    now: int)
    requires Inv(s) && id in s.writers && Ready(s.writers[id], root, chunks, size)
    requires root !in s.ix.sets || root in victims
    ensures var t := Commit(s.ix, root, size, chunks, from, victims, true, s.writers[id].claims, now);
      IxInv(t) && KeepsWanted(s.ix, t)
  {
    hide EvictAll, Ready, NoOrphans, KeepsWanted, AddHosted, ReleaseClaims, Unreserve, IxInv;
    var hs, mid := s.writers[id].claims, EvictAll(Unreserve(s.ix, size), victims);
    ReadyMeans(s, id, root, chunks, size);
    AfterPass(s.ix, size, victims, mid);
    StillRecordable(s.ix, mid, root, size, chunks);
    HostKeeps(s.ix, mid, root, size, chunks, from, hs, now);
  }

  lemma StillRecordable(s: Index, mid: Index, root: Hash, size: nat, chunks: seq<Hash>)
    requires Recordable(s, root, size, chunks) && KeepsWanted(s, mid) && mid.pending == s.pending
    requires forall h :: h in Names(root, chunks) ==> Claims(s, h) > 0
    ensures Recordable(mid, root, size, chunks)
  {
    assert forall h :: Claims(mid, h) == Claims(s, h);
  }

  /** The index half, for any action that the code does not refuse. */
  lemma IndexExactly(budget: int, s: System, a: Action, t: Index)
    requires Inv(s) && Possible(budget, s, a) && t == Apply(budget, s, a).ix
    ensures KeepsWanted(s.ix, t) && (IxInv(t) <==> Harmless(s, a))
  {
    hide Inv, IxInv, KeepsWanted, Ready, FitRun, Fits, EvictAll, MarkOwned, ReleaseClaims, AddHosted, StillNamed;
    match a
    case Publish(id, root, size, chunks, now) => PublishExactly(s, id, root, size, chunks, now, t);
    case CommitPush(id, root, chunks, from, q, victims, ok) =>
      if !ok {
        StepIndex(budget, s, a, t);
      } else if root in s.ix.sets && root !in victims {
        CommitExactly(s, id, root, chunks, q.size, from, victims, q.now);
      } else {
        FreshCommit(s, id, root, chunks, q.size, from, victims, q.now);
      }
    case _ => StepIndex(budget, s, a, t);
  }

  lemma AddHeld(s: Index, root: Hash, size: nat, chunks: seq<Hash>, from: string, victims: seq<Hash>, now: int)
    requires root in s.sets && root !in victims
    ensures var mid := EvictAll(Unreserve(s, size), victims);
      AddHosted(mid, root, size, chunks, from, now) == Touch(mid, root, now)
  {
    hide EvictAll;
    EvictAllSets(Unreserve(s, size), victims);
  }

  /** Exactly the harmless actions keep the invariant: of all that the code accepts, only a publish that drops a blob
      of the set it replaces, and a commit that hands over a chunk which nobody else claims and no set names. Even these
      delete nothing that is still claimed or referenced. */
  lemma StepKeepsInvExactly(budget: int, s: System, a: Action)
    requires Inv(s) && Possible(budget, s, a)
    ensures Inv(Apply(budget, s, a)) <==> Harmless(s, a)
    ensures KeepsWanted(s.ix, Apply(budget, s, a).ix)
  {
    hide Apply, Possible, Harmless, IxInv, Counted, StoredOnDisk, KeepsWanted;
    var t := Apply(budget, s, a);
    IndexExactly(budget, s, a, t.ix);
    StepCounted(budget, s, a);
    StoredKept(budget, s, a, t);
    OffersKept(budget, s, a);
  }

  lemma OffersKept(budget: int, s: System, a: Action)
    requires Possible(budget, s, a) && forall id :: id in s.writers ==> WithinOffer(s.writers[id])
    ensures forall id :: id in Apply(budget, s, a).writers ==> WithinOffer(Apply(budget, s, a).writers[id])
  {
    hide EvictAll, MarkOwned, Commit, ReleaseClaims, Ready, FitRun, Fits;
  }

  // ---------------------------------------------------------------- how the code gets there

  /** The state after a list of actions, each accepted in its turn. */
  ghost function After(budget: int, s: System, steps: seq<Action>): Option<System> {
    if steps == [] then Some(s)
    else
      match After(budget, s, steps[..|steps| - 1])
      case None => None
      case Some(t) =>
        var a := steps[|steps| - 1];
        if Possible(budget, t, a) then Some(Apply(budget, t, a)) else None
  }

  lemma NoSteps(budget: int, s: System)
    ensures After(budget, s, []) == Some(s)
  {
  }

  lemma OneMore(budget: int, s: System, steps: seq<Action>, a: Action, t: System)
    requires After(budget, s, steps) == Some(t) && Possible(budget, t, a)
    ensures After(budget, s, steps + [a]) == Some(Apply(budget, t, a))
  {
    hide Possible, Apply;
    assert (steps + [a])[..|steps|] == steps;
  }

  lemma {:induction false} AfterJoin(budget: int, s: System, xs: seq<Action>, ys: seq<Action>, t: System)
    requires After(budget, s, xs) == Some(t)
    ensures After(budget, s, xs + ys) == After(budget, t, ys)
  {
    hide Possible, Apply;
    if ys == [] {
      assert xs + ys == xs;
    } else {
      var n := |ys| - 1;
      AfterJoin(budget, s, xs, ys[..n], t);
      assert (xs + ys)[..|xs + ys| - 1] == xs + ys[..n];
    }
  }

  /** Claim and write one blob after another. */
  function Stores(id: int, hs: seq<Hash>): seq<Action> {
    if hs == [] then [] else Stores(id, hs[..|hs| - 1]) + [Claim(id, hs[|hs| - 1]), Put(id, hs[|hs| - 1])]
  }

  lemma StoreOne(budget: int, s: System, id: int, hs: seq<Hash>, h: Hash, promise: Option<nat>)
    requires Inv(s) && id in s.writers && s.writers[id] == Writer(hs, hs, promise)
    requires WithinOffer(Writer(hs + [h], hs + [h], promise))
    ensures After(budget, s, [Claim(id, h), Put(id, h)]).Some?
    ensures var t := After(budget, s, [Claim(id, h), Put(id, h)]).value;
      && Inv(t) && t.writers == s.writers[id := Writer(hs + [h], hs + [h], promise)]
      && t.ix.sets == s.ix.sets && t.ix.reserved == s.ix.reserved
  {
    hide Inv;
    var u := Apply(budget, s, Claim(id, h));
    StepKeepsInvExactly(budget, s, Claim(id, h));
    OneMore(budget, s, [], Claim(id, h), s);
    StepKeepsInvExactly(budget, u, Put(id, h));
    OneMore(budget, s, [Claim(id, h)], Put(id, h), u);
    assert [] + [Claim(id, h)] == [Claim(id, h)] && [Claim(id, h)] + [Put(id, h)] == [Claim(id, h), Put(id, h)];
    assert Apply(budget, u, Put(id, h)).writers == s.writers[id := Writer(hs + [h], hs + [h], promise)];
  }

  lemma {:induction false} StoresRun(budget: int, s: System, id: int, hs: seq<Hash>, promise: Option<nat>)
    requires Inv(s) && id in s.writers && s.writers[id] == Writer([], [], promise)
    requires WithinOffer(Writer(hs, hs, promise))
    ensures After(budget, s, Stores(id, hs)).Some?
    ensures var t := After(budget, s, Stores(id, hs)).value;
      && Inv(t) && t.writers == s.writers[id := Writer(hs, hs, promise)]
      && t.ix.sets == s.ix.sets && t.ix.reserved == s.ix.reserved
  {
    hide Inv, After;
    if hs == [] {
      NoSteps(budget, s);
      assert s.writers[id := Writer([], [], promise)] == s.writers;
    } else {
      var init, h := hs[..|hs| - 1], hs[|hs| - 1];
      assert hs == init + [h];
      StoresRun(budget, s, id, init, promise);
      var t := After(budget, s, Stores(id, init)).value;
      AfterJoin(budget, s, Stores(id, init), [Claim(id, h), Put(id, h)], t);
      StoreOne(budget, t, id, init, h, promise);
    }
  }

  const EmptyStore: System := System(Index(map[], map[], map[], 0, map[]), map[])

  /** A push receives a whole set; meanwhile a publisher stores the root's bytes as a content of their own. */
  function Meanwhile(root: Hash, chunks: seq<Hash>, q: Request, now: int): seq<Action> {
    [Begin(1), Reserve(1, q)] + Stores(1, [root] + chunks)
      + [Begin(2), Claim(2, root), Put(2, root), Publish(2, root, Weight(root), [], now)]
  }

  function Receiver(hs: seq<Hash>, size: nat): Writer {
    Writer(hs, hs, Some(size))
  }

  /** The push before the publisher comes. */
  lemma PushReceived(budget: int, hs: seq<Hash>, q: Request)
    requires q.size == ListWeight(hs) && !TooLarge(q) && q.budget == budget
    ensures After(budget, EmptyStore, [Begin(1), Reserve(1, q)] + Stores(1, hs)).Some?
    ensures var t := After(budget, EmptyStore, [Begin(1), Reserve(1, q)] + Stores(1, hs)).value;
      && Inv(t) && t.writers == map[1 := Receiver(hs, q.size)] && t.ix.sets == map[] && t.ix.reserved == q.size
  {
    hide Inv;
    var s1 := Apply(budget, EmptyStore, Begin(1));
    NothingStored();
    NoSteps(budget, EmptyStore);
    OneMore(budget, EmptyStore, [], Begin(1), EmptyStore);
    StepKeepsInvExactly(budget, EmptyStore, Begin(1));
    NothingFits(q);
    OneMore(budget, EmptyStore, [Begin(1)], Reserve(1, q), s1);
    StepKeepsInvExactly(budget, s1, Reserve(1, q));
    var s2 := Apply(budget, s1, Reserve(1, q));
    assert [] + [Begin(1)] == [Begin(1)] && [Begin(1)] + [Reserve(1, q)] == [Begin(1), Reserve(1, q)];
    AfterJoin(budget, EmptyStore, [Begin(1), Reserve(1, q)], Stores(1, hs), s2);
    StoresRun(budget, s2, 1, hs, Some(q.size));
    assert s2.writers[1 := Receiver(hs, q.size)] == map[1 := Receiver(hs, q.size)];
  }

  lemma NothingStored()
    ensures Inv(EmptyStore)
  {
  }

  lemma NothingFits(q: Request)
    requires !TooLarge(q)
    ensures Fits(map[], 0, q)
  {
  }

  lemma OneBlobReady(root: Hash)
    ensures Ready(Writer([root], [root], None), root, [], Weight(root))
  {
    assert [root][..0] == [];
    assert ListWeight([root]) == ListWeight([root][..0]) + Weight(root);
    assert Elems([root]) == {root} == Names(root, []);
  }

  lemma PublishOne(budget: int, s: System, id: int, root: Hash, now: int)
    requires Inv(s) && id in s.writers && s.writers[id] == Writer([root], [root], None) && root !in s.ix.sets
    ensures var a := Publish(id, root, Weight(root), [], now);
      && Possible(budget, s, a)
      && var t := Apply(budget, s, a);
        && Inv(t) && t.writers == s.writers[id := Writer([], [], None)] && t.ix.reserved == s.ix.reserved
        && t.ix.sets == s.ix.sets[root := Meta(true, Weight(root), [], now, now, "")]
  {
    hide Inv;
    OneBlobReady(root);
    StepKeepsInvExactly(budget, s, Publish(id, root, Weight(root), [], now));
  }

  /** The publish in between. */
  lemma RootPublished(budget: int, s: System, root: Hash, now: int)
    requires Inv(s) && 2 !in s.writers && root !in s.ix.sets
    ensures var steps := [Begin(2), Claim(2, root), Put(2, root), Publish(2, root, Weight(root), [], now)];
      && After(budget, s, steps).Some?
      && var t := After(budget, s, steps).value;
        && Inv(t) && t.writers == s.writers[2 := Writer([], [], None)] && t.ix.reserved == s.ix.reserved
        && t.ix.sets == s.ix.sets[root := Meta(true, Weight(root), [], now, now, "")]
  {
    hide Inv, After, Harmless, Possible, Apply;
    var begin, store, publish := [Begin(2)], [Claim(2, root), Put(2, root)], Publish(2, root, Weight(root), [], now);
    NoSteps(budget, s);
    Begins(budget, s, 2);
    var s1 := Apply(budget, s, Begin(2));
    OneMore(budget, s, [], Begin(2), s);
    assert [] + begin == begin;
    AfterJoin(budget, s, begin, store, s1);
    StoreOne(budget, s1, 2, [], root, None);
    assert [] + [root] == [root];
    var s2 := After(budget, s1, store).value;
    PublishOne(budget, s2, 2, root, now);
    OneMore(budget, s, begin + store, publish, s2);
    assert begin + store + [publish] == [Begin(2), Claim(2, root), Put(2, root), publish];
  }

  lemma Begins(budget: int, s: System, id: int)
    requires Inv(s) && id !in s.writers
    ensures Possible(budget, s, Begin(id)) && Inv(Apply(budget, s, Begin(id)))
    ensures Apply(budget, s, Begin(id)) == s.(writers := s.writers[id := Writer([], [], None)])
  {
    hide Inv;
    StepKeepsInvExactly(budget, s, Begin(id));
  }

  /** Every state up to the commit keeps the invariant; the commit is accepted, and leaves chunks that no set names
      and nobody claims. */
  lemma DiscordReached(budget: int, root: Hash, chunks: seq<Hash>, from: string, q: Request, now: int, h: Hash)
    requires h in chunks && h != root
    requires q.size == ListWeight([root] + chunks) && !TooLarge(q) && q.budget == budget
    ensures var commit := CommitPush(1, root, chunks, from, q, [], true);
      var s, t := After(budget, EmptyStore, Meanwhile(root, chunks, q, now)),
                  After(budget, EmptyStore, Meanwhile(root, chunks, q, now) + [commit]);
      s.Some? && Inv(s.value) && t.Some? && !NoOrphans(t.value.ix)
  {
    hide Inv, After, Stores, Apply, FitRun;
    var hs, commit := [root] + chunks, CommitPush(1, root, chunks, from, q, [], true);
    var opening := [Begin(1), Reserve(1, q)] + Stores(1, hs);
    var rest := [Begin(2), Claim(2, root), Put(2, root), Publish(2, root, Weight(root), [], now)];
    PushReceived(budget, hs, q);
    var s1 := After(budget, EmptyStore, opening).value;
    AfterJoin(budget, EmptyStore, opening, rest, s1);
    RootPublished(budget, s1, root, now);
    var s := After(budget, s1, rest).value;
    assert Ready(s.writers[1], root, chunks, q.size);
    RoomForOne(s.ix, root, q);
    OneMore(budget, EmptyStore, Meanwhile(root, chunks, q, now), commit, s);
    assert s.writers == map[1 := Receiver(hs, q.size), 2 := Writer([], [], None)];
    OnlyClaimant(s, hs, q.size, h);
    assert !StillNamed(s.ix, [], h);
    CommitExactly(s, 1, root, chunks, q.size, from, [], q.now);
    assert Apply(budget, s, commit).ix == Commit(s.ix, root, q.size, chunks, from, [], true, hs, q.now) by {
      CommitApplied(budget, s, 1, root, chunks, from, q, []);
    }
  }

  lemma CommitApplied(budget: int, s: System, id: int, root: Hash, chunks: seq<Hash>, from: string, q: Request,
                      victims: seq<Hash>)
    requires Possible(budget, s, CommitPush(id, root, chunks, from, q, victims, true))
    ensures Apply(budget, s, CommitPush(id, root, chunks, from, q, victims, true)).ix
         == Commit(s.ix, root, q.size, chunks, from, victims, true, s.writers[id].claims, q.now)
  {
    hide Commit, FitRun;
  }

  /** An owned set takes nothing from the hosting budget. */
  lemma RoomForOne(s: Index, root: Hash, q: Request)
    requires s.sets.Keys == {root} && s.sets[root].owned && s.reserved == q.size && !TooLarge(q)
    ensures FitRun(s.sets, Unreserve(s, q.size).reserved, q, [], true)
  {
    MinusNone(s.sets);
    Sums.SumRemove(s.sets.Keys, root, r => HostedSize(s.sets, r));
    assert s.sets.Keys - {root} == {};
  }

  lemma OnlyClaimant(s: System, hs: seq<Hash>, size: nat, h: Hash)
    requires Inv(s) && s.writers == map[1 := Receiver(hs, size), 2 := Writer([], [], None)]
    ensures LeftOver(s.ix, hs, h) == 0
  {
    var f := id => ContentRuns.Holds(s.writers, id, h);
    assert s.writers.Keys == {1, 2};
    Sums.SumRemove({1, 2}, 1, f);
    Sums.SumRemove({2}, 2, f);
    assert {1, 2} - {1} == {2} && {2} - {2} == {};
  }

  // ---------------------------------------------------------------- contents that meet it

  /** A publish keeps the references exact exactly when it carries every blob of the set indexed under its root. */
  lemma PublishedExactly(s: Index, c: Bytes, now: int)
    requires RefsExact(s)
    ensures RefsExact(Published(s, c, now)) <==> Extends(s, RootOf(c), ChunksOf(c))
  {
    hide AfterPuts, MarkOwned, BlobsOf, RootOf, ChunksOf, SetSize;
    var u := AfterPuts(s, BlobsOf(c));
    AfterPutsFacts(s, BlobsOf(c));
    assert forall h :: Refs(u, h) == Refs(s, h);
    assert forall r, h :: Names'(u, r, h) <==> Names'(s, r, h);
    MarkExactly(u, RootOf(c), SetSize(c), ChunksOf(c), HashesOf(BlobsOf(c)), now);
  }

  /** Publish a chunked content and then the bytes of its manifest, where they are small enough to be a content of
      their own: the second publish takes the root and drops the chunks. */
  lemma RepublishManifest(a: Index, c: Bytes, t1: int, t2: int)
    requires |c| > CHUNK_SIZE >= |EncodeManifest(ManifestOf(c))|
    requires RefsExact(a) && Extends(a, RootOf(c), ChunksOf(c))
    ensures RefsExact(Published(a, c, t1))
    ensures RefsExact(Published(Published(a, c, t1), EncodeManifest(ManifestOf(c)), t2))
       <==> forall h :: h in ChunksOf(c) ==> h == RootOf(c)
  {
    hide AfterPuts, MarkOwned, BlobsOf, Extends, RefsExact, HashesOf;
    var data, s := EncodeManifest(ManifestOf(c)), Published(a, c, t1);
    PublishedExactly(a, c, t1);
    PublishedExactly(s, data, t2);
    SmallRoot(c);
    PublishedList(a, c, t1);
    ExtendsAlone(s, RootOf(c), ChunksOf(c));
  }

  lemma SmallRoot(c: Bytes)
    requires |c| > CHUNK_SIZE >= |EncodeManifest(ManifestOf(c))|
    ensures var data := EncodeManifest(ManifestOf(c));
      RootOf(data) == RootOf(c) && ChunksOf(data) == [] && BlobsOf(data) == [data] && SetSize(data) == |data|
  {
    hide EncodeManifest;
  }

  lemma PublishedList(s: Index, c: Bytes, now: int)
    ensures RootOf(c) in Published(s, c, now).sets && Published(s, c, now).sets[RootOf(c)].chunks == ChunksOf(c)
  {
    hide AfterPuts, RootOf, ChunksOf, BlobsOf, SetSize, HashesOf;
  }

  lemma ExtendsAlone(s: Index, root: Hash, chunks: seq<Hash>)
    requires root in s.sets && s.sets[root].chunks == chunks
    ensures Extends(s, root, []) <==> forall h :: h in chunks ==> h == root
  {
  }

  /** A chunked content arrives by a push; while it does, the bytes of its manifest are published. The push is
      accepted and its chunks are then on disk for no set and no writer. */
  lemma PushMeetsPublish(budget: int, c: Bytes, from: string, q: Request, now: int, h: Hash)
    requires |c| > CHUNK_SIZE >= |EncodeManifest(ManifestOf(c))| && Publishable(c) && EndToEnd.Ordinary(c)
    requires TransfersInRuns.InPlay(EndToEnd.SetBlobs(c)) && h in ChunksOf(c) && h != RootOf(c)
    requires q.size == SetSize(c) && !TooLarge(q) && q.budget == budget
    ensures var data, ds := EncodeManifest(ManifestOf(c)), EndToEnd.SetBlobs(c);
      && ds != [] && HashesOf(ds) == [RootOf(c)] + RecordedChunks(ds)
      && RootOf(data) == RootOf(c) && ChunksOf(data) == [] && SetSize(data) == Weight(RootOf(c))
    ensures var steps := Meanwhile(RootOf(c), ChunksOf(c), q, now);
      var commit := CommitPush(1, RootOf(c), RecordedChunks(EndToEnd.SetBlobs(c)), from, q, [], true);
      var s, t := After(budget, EmptyStore, steps), After(budget, EmptyStore, steps + [commit]);
      s.Some? && Inv(s.value) && t.Some? && !NoOrphans(t.value.ix)
  {
    hide Inv, After, Meanwhile, RecordedChunks, NoOrphans, ManifestOf;
    var ds := EndToEnd.SetBlobs(c);
    SmallRoot(c);
    TransfersInRuns.SetChunks(c);
    EndToEnd.SetNames(c);
    EndToEnd.SetTotal(c);
    TransfersInRuns.ListWeightIsTotal(ds);
    assert ds[0] == EncodeManifest(ManifestOf(c)) && ds[0] in ds;
    DiscordReached(budget, RootOf(c), ChunksOf(c), from, q, now, h);
  }
}
