/** What the loader holds, told from the moves of a run: which future each key is cached as, what each
    future came to, and how a queue is cut into batches. */
module LoaderHistory {
  import opened Ast
  import opened DataLoader

  /** The state that a sequence of moves leads to, when each is possible. */
  function Play(c: Config, moves: seq<Move>): Option<State>
    requires c.Valid()
    decreases |moves|
  {
    if moves == [] then Some(Fresh())
    else
      var s :- Play(c, moves[..|moves| - 1]);
      After(c, s, moves[|moves| - 1])
  }

  // ----- the cache ----------------------------------------------------------------------------

  /** Move `j` makes future `f` and puts it in the cache under `k`: a `load` or `prime` of such a key. */
  predicate Caches(c: Config, moves: seq<Move>, j: nat, k: CacheKey, f: nat)
    requires c.Valid()
  {
    && j < |moves| && c.caching
    && (moves[j].LoadKey? || moves[j].PrimeKey?) && c.cacheKey(moves[j].key) == k
    && Play(c, moves[..j]).Some? && Play(c, moves[..j + 1]).Some?
    && |Play(c, moves[..j]).value.futures| == f && |Play(c, moves[..j + 1]).value.futures| == f + 1
  }

  /** The batch fails: its function raised, or gave results of another length. */
  predicate Fails(reply: Reply, batch: seq<Ticket>) { reply.Raised? || (reply.Returned? && |reply.results| != |batch|) }

  /** Move `j` drops the key: it clears it, clears everything, or completes a batch with such a key that fails. */
  predicate Drops(c: Config, moves: seq<Move>, j: nat, k: CacheKey)
    requires c.Valid()
  {
    && j < |moves|
    && match moves[j]
       case ClearKey(key) => c.cacheKey(key) == k
       case ClearKeys => true
       case Complete(i, reply) =>
         var s := Play(c, moves[..j]);
         s.Some? && i < |s.value.inflight| && Fails(reply, s.value.inflight[i])
         && exists t <- s.value.inflight[i] :: c.cacheKey(t.key) == k
       case _ => false
  }

  predicate Keeps(c: Config, moves: seq<Move>, j: nat, k: CacheKey, f: nat)
    requires c.Valid()
  {
    Caches(c, moves, j, k, f) && forall l | j < l < |moves| :: !Drops(c, moves, l, k)
  }

  ghost predicate Kept(c: Config, moves: seq<Move>, k: CacheKey, f: nat)
    requires c.Valid()
  {
    exists j: nat :: Keeps(c, moves, j, k, f)
  }

  lemma Prefixes(c: Config, front: seq<Move>, move: Move, j: nat, k: CacheKey, f: nat)
    requires c.Valid() && j < |front|
    ensures Caches(c, front + [move], j, k, f) <==> Caches(c, front, j, k, f)
    ensures Drops(c, front + [move], j, k) <==> Drops(c, front, j, k)
  {
    assert (front + [move])[..j] == front[..j] && (front + [move])[..j + 1] == front[..j + 1];
  }

  lemma KeptMore(c: Config, front: seq<Move>, move: Move, k: CacheKey, f: nat)
    requires c.Valid()
    ensures Kept(c, front + [move], k, f)
            <==> Caches(c, front + [move], |front|, k, f)
                 || (Kept(c, front, k, f) && !Drops(c, front + [move], |front|, k))
  {
    var moves := front + [move];
    forall j: nat | j < |front|
      ensures Caches(c, moves, j, k, f) <==> Caches(c, front, j, k, f)
      ensures Drops(c, moves, j, k) <==> Drops(c, front, j, k)
    {
      Prefixes(c, front, move, j, k, f);
    }
    if Caches(c, moves, |front|, k, f) { assert Keeps(c, moves, |front|, k, f); }
    if j: nat :| Keeps(c, front, j, k, f) {
      if !Drops(c, moves, |front|, k) { assert Keeps(c, moves, j, k, f); }
    }
    if j: nat :| Keeps(c, moves, j, k, f) && j < |front| { assert Keeps(c, front, j, k, f); }
  }

  lemma {:induction false} UncachedExactly(c: Config, cache: map<CacheKey, nat>, batch: seq<Ticket>, k: CacheKey)
    ensures k in Uncached(c, cache, batch)
            <==> k in cache && !(c.caching && exists t <- batch :: c.cacheKey(t.key) == k)
    ensures k in Uncached(c, cache, batch) ==> Uncached(c, cache, batch)[k] == cache[k]
    decreases |batch|
  {
    if batch != [] && c.caching {
      var n := |batch| - 1;
      UncachedExactly(c, cache, batch[..n], k);
      assert batch == batch[..n] + [batch[n]];
      assert batch[n] in batch;
    }
  }

  predicate CachedIn(s: State, k: CacheKey, f: nat) { k in s.cache && s.cache[k] == f }

  predicate DropsNow(c: Config, s: State, move: Move, k: CacheKey) {
    match move
    case ClearKey(key) => c.cacheKey(key) == k
    case ClearKeys => true
    case Complete(i, reply) =>
      i < |s.inflight| && Fails(reply, s.inflight[i]) && exists t <- s.inflight[i] :: c.cacheKey(t.key) == k
    case _ => false
  }

  lemma CacheAfter(c: Config, s: State, move: Move, s': State, k: CacheKey, f: nat)
    requires c.Valid() && After(c, s, move) == Some(s') && (!c.caching ==> s.cache == map[])
    ensures !c.caching ==> s'.cache == map[]
    ensures CachedIn(s', k, f)
            <==> (c.caching && (move.LoadKey? || move.PrimeKey?) && c.cacheKey(move.key) == k
                  && |s.futures| == f && |s'.futures| == f + 1)
                 || (CachedIn(s, k, f) && !DropsNow(c, s, move, k))
  {
    if move.Complete? {
      UncachedExactly(c, s.cache, s.inflight[move.i], k);
    }
  }

  /** A key is cached as a future exactly when a `load` or `prime` of the key made that future, and nothing has
      dropped the key since. */
  lemma {:induction false} CachedExactly(c: Config, moves: seq<Move>, k: CacheKey, f: nat)
    requires c.Valid() && Play(c, moves).Some?
    ensures CachedIn(Play(c, moves).value, k, f) <==> Kept(c, moves, k, f)
    ensures !c.caching ==> Play(c, moves).value.cache == map[]
    decreases |moves|
  {
    if moves != [] {
      var front, move := moves[..|moves| - 1], moves[|moves| - 1];
      assert moves == front + [move] && moves[..|front| + 1] == moves;
      CachedExactly(c, front, k, f);
      KeptMore(c, front, move, k, f);
      CacheAfter(c, Play(c, front).value, move, Play(c, moves).value, k, f);
    }
  }

  /** `load` returns a future made before exactly when the key is cached as that future; otherwise it makes one. */
  lemma LoadsCached(c: Config, moves: seq<Move>, key: Key, f: nat)
    requires c.Valid() && Play(c, moves).Some? && f < |Play(c, moves).value.futures|
    ensures Load(c, Play(c, moves).value, key).1 == f <==> Kept(c, moves, c.cacheKey(key), f)
  {
    CachedExactly(c, moves, c.cacheKey(key), f);
  }

  // ----- what futures come to -------------------------------------------------------------------

  /** A result handed out: a value resolves, a failure rejects. */
  predicate Hands(result: Result, outcome: Outcome) {
    match result
    case Good(v) => outcome == Resolved(v)
    case Bad => outcome == Rejected
  }

  /** What the completion of `batch` makes of future `f`: nothing unless the batch holds it and it is pending; its
      own result when the results are aligned, otherwise a rejection; nothing when the batch was cancelled. */
  predicate Comes(batch: seq<Ticket>, reply: Reply, before: Future, after: Future, f: nat) {
    && after == before.(outcome := after.outcome)
    && if reply.Aborted? || !before.outcome.Pending? || !Numbers(batch, f) then after == before
       else if Fails(reply, batch) then after.outcome == Rejected
       else exists j | 0 <= j < |batch| :: batch[j].future == f && Hands(reply.results[j], after.outcome)
  }

  /** A future changes only when a batch that holds it completes, or when it is given up while pending. */
  lemma OutcomesExactly(c: Config, s: State, move: Move, f: nat)
    requires c.Valid() && After(c, s, move).Some? && f < |s.futures|
    ensures var s' := After(c, s, move).value;
            && f < |s'.futures|
            && match move
               case Complete(i, reply) => Comes(s.inflight[i], reply, s.futures[f], s'.futures[f], f)
               case GiveUp(g) =>
                 s'.futures[f]
                 == if g == f && s.futures[f].outcome.Pending? then s.futures[f].(outcome := Cancelled)
                     else s.futures[f]
               case _ => s'.futures[f] == s.futures[f]
  {
    if move.Complete? {
      var batch, reply := s.inflight[move.i], move.reply;
      RejectExact(s.futures, batch, f);
      if reply.Returned? && |reply.results| == |batch| { SettleExact(s.futures, batch, reply.results, f); }
    }
  }

  /** In every run a future that `prime` made holds the primed result. */
  lemma PrimedExactly(c: Config, s: State, steps: nat, f: nat)
    requires c.Valid() && Reachable(c, s, steps) && f < |s.futures| && s.futures[f].origin.Primed?
    ensures Hands(s.futures[f].origin.result, s.futures[f].outcome)
  {
    RunsAreSound(c, s, steps);
  }

  // ----- batches -----------------------------------------------------------------------------------

  /** Batches are as large as allowed: all but the last are full, and without a limit there is one. */
  lemma {:induction false} BatchesFull(c: Config, queue: seq<Ticket>)
    requires c.Valid()
    ensures var bs := Batches(c, queue);
            && (c.maxBatch.None? ==> |bs| <= 1)
            && (c.maxBatch.Some? ==> forall b | 0 <= b < |bs| - 1 :: |bs[b]| == c.maxBatch.value)
  {
    if queue != [] && c.maxBatch.Some? { ChunksFull(queue, c.maxBatch.value); }
  }

  lemma {:induction false} ChunksFull(queue: seq<Ticket>, size: nat)
    requires size >= 1
    ensures forall b | 0 <= b < |Chunks(queue, size)| - 1 :: |Chunks(queue, size)[b]| == size
  {
    if |queue| > size {
      ChunksFull(queue[size..], size);
      var rest := Chunks(queue[size..], size);
      assert forall b | 0 < b < |rest| + 1 :: ([queue[..size]] + rest)[b] == rest[b - 1];
    }
  }
}
