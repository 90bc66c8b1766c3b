/** The critical sections of the code are the actions of the runs: each call, made in a state of a run, is an action
    that is possible there and leaves the index that the action leads to (internal/content/contentindex.go). */
module CodeSteps {
  import opened Bytes
  import opened Content
  import opened IndexModel
  import opened IndexInvariant
  import opened ContentIndexCode
  import R = ContentRuns

  /** The index and one writer's handle, as the run has them. */
  ghost predicate At(s: R.System, id: int, claims: BlobClaims)
    reads claims, claims.ix, claims.ix.store
  {
    s.ix == claims.ix.State() && id in s.writers && s.writers[id].claims == claims.hashes
  }

  method Begin(ix: ContentIndex, ghost budget: int, ghost s: R.System, ghost id: int) returns (claims: BlobClaims)
    requires s.ix == ix.State() && id !in s.writers
    ensures fresh(claims) && claims.ix == ix
    ensures R.Possible(budget, s, R.Begin(id)) && At(R.Apply(budget, s, R.Begin(id)), id, claims)
  {
    claims := new BlobClaims(ix);
  }

  method Claim(claims: BlobClaims, h: Hash, ghost budget: int, ghost s: R.System, ghost id: int)
    requires At(s, id, claims) && R.Possible(budget, s, R.Claim(id, h))
    modifies claims, claims.ix
    ensures At(R.Apply(budget, s, R.Claim(id, h)), id, claims)
  {
    claims.Claim(h);
  }

  /** Writing a blob that is claimed. */
  method Put(claims: BlobClaims, data: Bytes, ghost budget: int, ghost s: R.System, ghost id: int)
    requires At(s, id, claims) && ContentHash(data) in claims.hashes
    requires |data| <= MAX_BLOB_SIZE && BlobOf(ContentHash(data)) == data
    modifies claims.ix.store
    ensures R.Possible(budget, s, R.Put(id, ContentHash(data)))
    ensures At(R.Apply(budget, s, R.Put(id, ContentHash(data))), id, claims)
  {
    var stored := claims.ix.store.Put(data);
  }

  method Discard(claims: BlobClaims, ghost budget: int, ghost s: R.System, ghost id: int)
    requires At(s, id, claims)
    modifies claims, claims.ix, claims.ix.store
    ensures R.Possible(budget, s, R.Discard(id)) && At(R.Apply(budget, s, R.Discard(id)), id, claims)
  {
    hide ReleaseClaims;
    claims.Discard();
  }

  method Publish(claims: BlobClaims, root: Hash, size: nat, chunks: seq<Hash>, now: int, ghost budget: int,
                 ghost s: R.System, ghost id: int)
    requires At(s, id, claims) && R.Possible(budget, s, R.Publish(id, root, size, chunks, now))
    modifies claims, claims.ix, claims.ix.store
    ensures At(R.Apply(budget, s, R.Publish(id, root, size, chunks, now)), id, claims)
  {
    hide MarkOwned, R.Ready;
    claims.ix.MarkOwned(root, size, chunks, claims, now);
  }

  method Reserve(claims: BlobClaims, q: Request, ghost budget: int, ghost s: R.System, ghost id: int)
      returns (ok: bool)
    requires At(s, id, claims) && R.Possible(budget, s, R.Reserve(id, q))
    modifies claims.ix, claims.ix.store
    ensures At(R.Apply(budget, s, R.Reserve(id, q)), id, claims)
    ensures R.Apply(budget, s, R.Reserve(id, q)).writers[id].promise == if ok then Some(q.size) else None
  {
    hide Fits;
    ok := claims.ix.Reserve(q);
  }

  method Release(claims: BlobClaims, size: nat, ghost budget: int, ghost s: R.System, ghost id: int)
    requires At(s, id, claims) && s.writers[id].promise == Some(size)
    modifies claims.ix
    ensures R.Possible(budget, s, R.Release(id)) && At(R.Apply(budget, s, R.Release(id)), id, claims)
  {
    claims.ix.Release(size);
  }

  /** A commit, with the victims and the answer that its pass arrives at. */
  method Commit(claims: BlobClaims, root: Hash, chunks: seq<Hash>, from: string, q: Request, ghost budget: int,
                ghost s: R.System, ghost id: int)
      returns (ok: bool, ghost victims: seq<Hash>)
    requires At(s, id, claims) && s.writers[id].promise == Some(q.size) && q.budget == budget
    requires R.Ready(s.writers[id], root, chunks, q.size)
    modifies claims, claims.ix, claims.ix.store
    ensures var a := R.CommitPush(id, root, chunks, from, q, victims, ok);
      R.Possible(budget, s, a) && At(R.Apply(budget, s, a), id, claims)
  {
    hide IndexModel.Commit, FitRun, Fits, R.Ready;
    ok, victims := claims.ix.CommitHosted(root, chunks, from, q, claims);
  }

  method Admit(ix: ContentIndex, q: Request, ghost budget: int, ghost s: R.System)
      returns (ok: bool, ghost victims: seq<Hash>)
    requires s.ix == ix.State()
    modifies ix, ix.store
    ensures R.Possible(budget, s, R.Admit(q, victims, ok))
    ensures ix.State() == R.Apply(budget, s, R.Admit(q, victims, ok)).ix
  {
    hide EvictAll, FitRun, Fits;
    ok, victims := ix.Admit(q);
  }

  method TouchSet(ix: ContentIndex, root: Hash, now: int, ghost budget: int, ghost s: R.System)
    requires s.ix == ix.State()
    modifies ix
    ensures ix.State() == R.Apply(budget, s, R.TouchSet(root, now)).ix
  {
    ix.TouchLocked(root, now);
  }
}
