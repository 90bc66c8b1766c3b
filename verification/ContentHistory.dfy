/** Whole runs of a content index: what holds in every state, and what lasts from the state in which a set is recorded
    (internal/content/contentindex.go, internal/node/contentnet.go). */
module ContentHistory {
  import opened Content
  import opened IndexModel
  import opened IndexInvariant
  import opened ContentRuns
  import opened ContentTotals

  // ---------------------------------------------------------------- runs

  /** A run: each state follows from the one before by an enabled action of some writer. */
  ghost predicate Run(budget: int, ss: seq<System>, steps: seq<Action>) {
    && |ss| == |steps| + 1
    && forall i :: 0 <= i < |steps| ==> Enabled(budget, ss[i], steps[i]) && ss[i + 1] == Apply(budget, ss[i], steps[i])
  }

  lemma {:induction false} RunKeepsInv(budget: int, ss: seq<System>, steps: seq<Action>, i: nat)
    requires Run(budget, ss, steps) && Inv(ss[0]) && i < |ss|
    ensures Inv(ss[i])
  {
    if i > 0 {
      RunKeepsInv(budget, ss, steps, i - 1);
      StepKeepsInv(budget, ss[i - 1], steps[i - 1]);
    }
  }

  lemma {:induction false} RunWithinBudget(budget: int, ss: seq<System>, steps: seq<Action>, i: nat)
    requires Run(budget, ss, steps) && WithinBudget(budget, ss[0]) && i < |ss|
    ensures WithinBudget(budget, ss[i])
  {
    if i > 0 {
      RunWithinBudget(budget, ss, steps, i - 1);
      StepWithinBudget(budget, ss[i - 1], steps[i - 1]);
    }
  }

  lemma {:induction false} OwnedForever(budget: int, ss: seq<System>, steps: seq<Action>, i: nat, j: nat, r: Hash)
    requires Run(budget, ss, steps) && i <= j < |ss| && Owned(ss[i], r)
    ensures Owned(ss[j], r)
    decreases j
  {
    if i < j {
      OwnedForever(budget, ss, steps, i, j - 1, r);
      OwnedIsKept(budget, ss[j - 1], steps[j - 1], r);
    }
  }

  ghost predicate WholeAs(s: System, r: Hash, chunks: seq<Hash>) {
    Whole(s.ix, r) && Names(r, chunks) <= Names(r, s.ix.sets[r].chunks)
  }

  lemma StepWhole(budget: int, ss: seq<System>, steps: seq<Action>, k: nat, r: Hash, chunks: seq<Hash>)
    requires Run(budget, ss, steps) && Inv(ss[0]) && k < |steps|
    requires WholeAs(ss[k], r, chunks) && r in ss[k + 1].ix.sets
    ensures WholeAs(ss[k + 1], r, chunks)
  {
    RunKeepsInv(budget, ss, steps, k);
    WholeStaysWhole(budget, ss[k], steps[k], r);
    ChunksKept(budget, ss[k], steps[k], r);
  }

  /** What every step of a stretch keeps, the stretch keeps. */
  lemma {:induction false} KeptAlong(ss: seq<System>, good: System -> bool, i: nat, j: nat)
    requires i <= j < |ss| && good(ss[i])
    requires forall k :: i <= k < j && good(ss[k]) ==> good(ss[k + 1])
    ensures good(ss[j])
    decreases j
  {
    if i < j {
      KeptAlong(ss, good, i, j - 1);
    }
  }

  lemma WholeWhileIndexed(budget: int, ss: seq<System>, steps: seq<Action>, i: nat, j: nat, r: Hash, chunks: seq<Hash>)
    requires Run(budget, ss, steps) && Inv(ss[0]) && i <= j < |ss| && WholeAs(ss[i], r, chunks)
    requires forall k :: i < k <= j ==> r in ss[k].ix.sets
    ensures WholeAs(ss[j], r, chunks)
  {
    ghost var good: System -> bool := s => WholeAs(s, r, chunks);
    forall k | i <= k < j && good(ss[k]) ensures good(ss[k + 1]) {
      StepWhole(budget, ss, steps, k, r, chunks);
    }
    KeptAlong(ss, good, i, j);
  }

  /** From the state in which a set is recorded until it is evicted, all its blobs are on disk with the bytes
      their names stand for. */
  lemma RecordedStaysWhole(budget: int, ss: seq<System>, steps: seq<Action>, i: nat, j: nat)
    requires Run(budget, ss, steps) && Inv(ss[0]) && i < j < |ss| && Records(steps[i])
    requires forall k :: i < k <= j ==> steps[i].root in ss[k].ix.sets
    ensures forall h :: h in Names(steps[i].root, steps[i].chunks) ==>
      h in ss[j].ix.disk && ss[j].ix.disk[h] == BlobOf(h)
  {
    RunKeepsInv(budget, ss, steps, i);
    RecordedWhole(budget, ss[i], steps[i]);
    WholeWhileIndexed(budget, ss, steps, i + 1, j, steps[i].root, steps[i].chunks);
    RunKeepsInv(budget, ss, steps, j);
  }

  /** Published content is never lost: in every later state of every run it is owned and whole. */
  lemma PublishedContentSurvives(budget: int, ss: seq<System>, steps: seq<Action>, i: nat, j: nat)
    requires Run(budget, ss, steps) && Inv(ss[0]) && i < |steps| && steps[i].Publish? && i < j < |ss|
    ensures Owned(ss[j], steps[i].root)
    ensures forall h :: h in Names(steps[i].root, steps[i].chunks) ==>
      h in ss[j].ix.disk && ss[j].ix.disk[h] == BlobOf(h)
  {
    var r := steps[i].root;
    assert Owned(ss[i + 1], r);
    forall k | i < k <= j ensures Owned(ss[k], r) {
      OwnedForever(budget, ss, steps, i + 1, k, r);
    }
    RecordedStaysWhole(budget, ss, steps, i, j);
  }

  /** An empty store satisfies everything the runs start from. */
  lemma EmptyStart(budget: nat)
    ensures var s := System(Index(map[], map[], map[], 0, map[]), map[]); Inv(s) && WithinBudget(budget, s)
  {
  }

  /** No action leaves a claim count of zero behind. */
  lemma StepKeepsTidy(budget: int, s: System, a: Action)
    requires Enabled(budget, s, a) && Tidy(s.ix)
    ensures Tidy(Apply(budget, s, a).ix)
  {
    hide EvictAll, Fits, FitRun, Reference, Ready, WithinOffer;
    match a
    case Publish(id, root, size, chunks, now) => PublishPending(s.ix, root, size, chunks, s.writers[id].claims, now);
    case CommitPush(id, root, chunks, from, q, victims, ok) => EvictAllSets(Unreserve(s.ix, q.size), victims);
      CommitPending(EvictAll(Unreserve(s.ix, q.size), victims), root, q.size, chunks, from, q.now);
    case Admit(q, victims, ok) => EvictAllSets(s.ix, victims);
    case _ =>
  }

  lemma PublishPending(s: Index, root: Hash, size: nat, chunks: seq<Hash>, hs: seq<Hash>, now: int)
    requires Tidy(s)
    ensures Tidy(MarkOwned(s, root, size, chunks, hs, now))
  {
  }

  lemma CommitPending(s: Index, root: Hash, size: nat, chunks: seq<Hash>, from: string, now: int)
    ensures AddHosted(s, root, size, chunks, from, now).pending == s.pending
  {
  }

  lemma {:induction false} RunKeepsTidy(budget: int, ss: seq<System>, steps: seq<Action>, i: nat)
    requires Run(budget, ss, steps) && Tidy(ss[0].ix) && i < |ss|
    ensures Tidy(ss[i].ix)
  {
    if i > 0 {
      RunKeepsTidy(budget, ss, steps, i - 1);
      StepKeepsTidy(budget, ss[i - 1], steps[i - 1]);
    }
  }
}
