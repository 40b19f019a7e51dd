/** The loader object: its cache, queue and flag updated in place, its futures completed in place, proved
    against the functions of DataLoader. */
module DataLoaderObject {
  import opened Ast
  import opened DataLoader

  class Loader {
    const config: Config
    var cache: map<CacheKey, nat>
    var queue: seq<Ticket>
    var scheduled: bool
    /** The event loop's side: dispatch callbacks waiting to run, futures, running batches. */
    var callbacks: nat
    var futures: seq<Future>
    var inflight: seq<seq<Ticket>>
    ghost var dispatched: seq<Ticket>
    ghost var stranded: seq<Ticket>
    ghost var answers: seq<Answer>
    ghost var disturbed: bool

    constructor (config: Config)
      ensures this.config == config && Now() == Fresh()
    {
      this.config := config;
      cache, queue, scheduled, callbacks := map[], [], false, 0;
      futures, inflight := [], [];
      dispatched, stranded, answers, disturbed := [], [], [], false;
    }

    ghost function Now(): State
      reads this
    {
      State(cache, queue, scheduled, callbacks, futures, inflight, dispatched, stranded, answers, disturbed)
    }

    method CreateFuture(key: Key, origin: Origin, outcome: Outcome) returns (f: nat)
      modifies this`futures
      ensures f == old(|futures|) && futures == old(futures) + [Future(key, origin, outcome)]
    {
      f := |futures|;
      futures := futures + [Future(key, origin, outcome)];
    }

    /** `load`. */
    method LoadOne(key: Key) returns (f: nat)
      modifies this
      ensures (Now(), f) == Load(config, old(Now()), key)
    {
      var k := config.cacheKey(key);
      if config.caching {
        if k in cache { return cache[k]; }
      }
      f := CreateFuture(key, Loaded, Pending);
      queue := queue + [Ticket(key, f)];
      if config.caching { cache := cache[k := f]; }
      if !scheduled {
        scheduled := true;
        callbacks := callbacks + 1;
      }
    }

    /** `clear`. */
    method ClearOne(key: Key)
      modifies this
      ensures Now() == Clear(config, old(Now()), key)
    {
      cache := cache - {config.cacheKey(key)};
      disturbed := true;
    }

    /** `clear_all`. */
    method ClearEverything()
      modifies this
      ensures Now() == ClearAll(old(Now()))
    {
      cache := map[];
      disturbed := true;
    }

    /** `prime`. */
    method PrimeOne(key: Key, result: Result)
      modifies this
      ensures Now() == Prime(config, old(Now()), key, result)
    {
      var k := config.cacheKey(key);
      if !config.caching || k in cache { return; }
      var f := CreateFuture(key, Primed(result), if result.Good? then Resolved(result.value) else Rejected);
      cache := cache[k := f];
    }

    /** `_dispatch`, called back by the event loop. */
    method DispatchQueue()
      requires config.Valid() && callbacks > 0
      modifies this
      ensures Now() == Dispatch(config, old(Now()))
    {
      callbacks := callbacks - 1;
      scheduled := false;
      var taken := queue;
      queue := [];
      dispatched := dispatched + taken;
      if taken == [] {
        assert inflight + [] == inflight && dispatched + [] == dispatched;
        return;
      }
      if config.maxBatch.Some? && |taken| > config.maxBatch.value {
        DispatchChunks(taken, config.maxBatch.value);
      } else {
        DispatchBatch(taken);
      }
    }

    method DispatchChunks(taken: seq<Ticket>, size: nat)
      requires size >= 1 && taken != []
      modifies this`inflight
      ensures inflight == old(inflight) + Chunks(taken, size)
    {
      var start := 0;
      assert taken[0..] == taken;
      ghost var goal := inflight + Later(taken, 0, size);
      while start < |taken|
        invariant start <= |taken| && inflight + Later(taken, start, size) == goal
      {
        var end := if start + size < |taken| then start + size else |taken|;
        NextChunk(inflight, taken, start, end, size);
        DispatchBatch(taken[start..end]);
        start := end;
      }
      assert inflight + [] == inflight;
    }

    /** `_dispatch_batch`: the batch runs from now on. */
    method DispatchBatch(batch: seq<Ticket>)
      modifies this`inflight
      ensures inflight == old(inflight) + [batch]
    {
      inflight := inflight + [batch];
    }

    /** `future.set_result` or `set_exception`, which a future already done would refuse. */
    method Complete(f: nat, outcome: Outcome)
      requires f < |futures| && futures[f].outcome.Pending?
      modifies this`futures
      ensures futures == old(futures)[f := old(futures[f]).(outcome := outcome)]
    {
      futures := futures[f := futures[f].(outcome := outcome)];
    }

    /** The rest of `_run_batch` once the batch function has ended. */
    method FinishBatch(i: nat, reply: Reply)
      requires i < |inflight|
      modifies this
      ensures Now() == Finish(config, old(Now()), i, reply)
    {
      var batch := inflight[i];
      inflight := inflight[..i] + inflight[i + 1..];
      match reply
      case Aborted =>
        stranded, disturbed := stranded + batch, true;
      case Raised =>
        FailPending(batch);
        disturbed := true;
      case Returned(results) =>
        if |results| != |batch| {
          FailPending(batch);
          disturbed := true;
        } else {
          HandOut(batch, results);
          answers := answers + [Answer(batch, results)];
        }
    }

    method HandOut(batch: seq<Ticket>, results: seq<Result>)
      requires |batch| == |results|
      modifies this`futures
      ensures futures == SettleAll(old(futures), batch, results)
    {
      for i := 0 to |batch|
        invariant futures == SettleAll(old(futures), batch[..i], results[..i])
      {
        assert batch[..i + 1][..i] == batch[..i] && results[..i + 1][..i] == results[..i];
        var f := batch[i].future;
        if f < |futures| && futures[f].outcome.Pending? {
          Complete(f, if results[i].Good? then Resolved(results[i].value) else Rejected);
        }
      }
      assert batch[..|batch|] == batch && results[..|results|] == results;
    }

    /** `_fail_pending`: reject what is not done, drop all from the cache. */
    method FailPending(batch: seq<Ticket>)
      modifies this`futures, this`cache
      ensures futures == RejectAll(old(futures), batch) && cache == Uncached(config, old(cache), batch)
    {
      for i := 0 to |batch|
        invariant futures == RejectAll(old(futures), batch[..i]) && cache == Uncached(config, old(cache), batch[..i])
      {
        assert batch[..i + 1][..i] == batch[..i];
        var f := batch[i].future;
        if f < |futures| && futures[f].outcome.Pending? { Complete(f, Rejected); }
        if config.caching { cache := cache - {config.cacheKey(batch[i].key)}; }
      }
      assert batch[..|batch|] == batch;
    }
  }

  /** The batches still to come from offset `start` on. */
  function Later(taken: seq<Ticket>, start: nat, size: nat): seq<seq<Ticket>>
    requires size >= 1 && start <= |taken|
  {
    if start < |taken| then Chunks(taken[start..], size) else []
  }

  lemma NextChunk(before: seq<seq<Ticket>>, taken: seq<Ticket>, start: nat, end: nat, size: nat)
    requires size >= 1 && start < |taken| && end == if start + size < |taken| then start + size else |taken|
    ensures before + Later(taken, start, size) == before + [taken[start..end]] + Later(taken, end, size)
  {
    if start + size < |taken| {
      assert taken[start..][..size] == taken[start..end] && taken[start..][size..] == taken[end..];
    } else {
      assert taken[start..] == taken[start..end];
    }
    assert Later(taken, start, size) == [taken[start..end]] + Later(taken, end, size);
  }
}
