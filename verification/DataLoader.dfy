/** The batching, caching loader of fastql/dataloader.py: what each of its operations does to the cache,
    the queue and the futures, and what every interleaving of loads, ticks and batch completions keeps. */
module DataLoader {
  import opened Ast
  import opened Runs

  type Key = int
  type CacheKey = int
  type Val = int

  /** `maxBatch` is at least 1 when given; the cache key function is the user's. */
  datatype Config = Config(maxBatch: Option<nat>, caching: bool, cacheKey: Key -> CacheKey) {
    predicate Valid() { maxBatch.Some? ==> maxBatch.value >= 1 }
  }

  datatype Outcome = Pending | Resolved(value: Val) | Rejected | Cancelled

  /** A future is created by `load`, or by `prime` with the result it is to hold. */
  datatype Origin = Loaded | Primed(result: Result)

  /** A future, the key it was created for, and what created it. */
  datatype Future = Future(key: Key, origin: Origin, outcome: Outcome)

  /** A queued key with the number of its future. */
  datatype Ticket = Ticket(key: Key, future: nat)

  /** What a batch function says about one key. */
  datatype Result = Good(value: Val) | Bad

  /** How a batch function ends: with results of whatever length, with an exception, or by being
      cancelled, which `except Exception` does not catch. */
  datatype Reply = Returned(results: seq<Result>) | Raised | Aborted

  /** A completed batch and its aligned results. */
  datatype Answer = Answer(batch: seq<Ticket>, results: seq<Result>)

  /** The loader, its futures and the event loop's part: pending dispatch callbacks and running batches.
      `dispatched`, `stranded`, `answers` and `disturbed` only record history. */
  datatype State = State(
    cache: map<CacheKey, nat>, queue: seq<Ticket>, scheduled: bool, callbacks: nat,
    futures: seq<Future>, inflight: seq<seq<Ticket>>,
    dispatched: seq<Ticket>, stranded: seq<Ticket>, answers: seq<Answer>, disturbed: bool)

  function Fresh(): State { State(map[], [], false, 0, [], [], [], [], [], false) }

  // ----- operations -----------------------------------------------------------------------

  /** `load`: the state after it, and the future returned. */
  function Load(c: Config, s: State, key: Key): (State, nat) {
    var k := c.cacheKey(key);
    if c.caching && k in s.cache then (s, s.cache[k])
    else
      var f := |s.futures|;
      (s.(futures := s.futures + [Future(key, Loaded, Pending)],
          queue := s.queue + [Ticket(key, f)],
          cache := if c.caching then s.cache[k := f] else s.cache,
          scheduled := true,
          callbacks := if s.scheduled then s.callbacks else s.callbacks + 1), f)
  }

  function Clear(c: Config, s: State, key: Key): State { s.(cache := s.cache - {c.cacheKey(key)}, disturbed := true) }

  function ClearAll(s: State): State { s.(cache := map[], disturbed := true) }

  /** `prime` with a value or a failure. */
  function Prime(c: Config, s: State, key: Key, result: Result): State {
    var k := c.cacheKey(key);
    if !c.caching || k in s.cache then s
    else s.(futures := s.futures + [Future(key, Primed(result), Settled(result))], cache := s.cache[k := |s.futures|])
  }

  function Settled(result: Result): Outcome { if result.Good? then Resolved(result.value) else Rejected }

  /** The queue cut into batches no longer than `size`. */
  function Chunks(queue: seq<Ticket>, size: nat): seq<seq<Ticket>>
    requires size >= 1
  {
    if |queue| <= size then [queue] else [queue[..size]] + Chunks(queue[size..], size)
  }

  function Batches(c: Config, queue: seq<Ticket>): seq<seq<Ticket>>
    requires c.Valid()
  {
    if queue == [] then [] else if c.maxBatch.Some? then Chunks(queue, c.maxBatch.value) else [queue]
  }

  /** `_dispatch`, run by the event loop. */
  function Dispatch(c: Config, s: State): State
    requires c.Valid() && s.callbacks > 0
  {
    s.(scheduled := false, callbacks := s.callbacks - 1, queue := [],
       inflight := s.inflight + Batches(c, s.queue), dispatched := s.dispatched + s.queue)
  }

  function Settle(futures: seq<Future>, f: nat, outcome: Outcome): seq<Future> {
    if f < |futures| && futures[f].outcome.Pending? then futures[f := futures[f].(outcome := outcome)] else futures
  }

  /** Results handed out one by one; futures already done are passed over. */
  function SettleAll(futures: seq<Future>, batch: seq<Ticket>, results: seq<Result>): (r: seq<Future>)
    requires |batch| == |results|
    ensures |r| == |futures|
    decreases |batch|
  {
    if batch == [] then futures
    else
      var n := |batch| - 1;
      Settle(SettleAll(futures, batch[..n], results[..n]), batch[n].future, Settled(results[n]))
  }

  function RejectAll(futures: seq<Future>, batch: seq<Ticket>): (r: seq<Future>)
    ensures |r| == |futures|
    decreases |batch|
  {
    if batch == [] then futures
    else
      var n := |batch| - 1;
      Settle(RejectAll(futures, batch[..n]), batch[n].future, Rejected)
  }

  function Uncached(c: Config, cache: map<CacheKey, nat>, batch: seq<Ticket>): map<CacheKey, nat>
    decreases |batch|
  {
    if batch == [] || !c.caching then cache
    else
      var n := |batch| - 1;
      Uncached(c, cache, batch[..n]) - {c.cacheKey(batch[n].key)}
  }

  /** The rest of `_run_batch` once the batch function has ended. */
  function Finish(c: Config, s: State, i: nat, reply: Reply): State
    requires i < |s.inflight|
  {
    var batch := s.inflight[i];
    var s1 := s.(inflight := s.inflight[..i] + s.inflight[i + 1..]);
    if reply.Aborted? then s1.(stranded := s1.stranded + batch, disturbed := true)
    else if reply.Returned? && |reply.results| == |batch| then
      s1.(futures := SettleAll(s.futures, batch, reply.results), answers := s.answers + [Answer(batch, reply.results)])
    else
      s1.(futures := RejectAll(s.futures, batch), cache := Uncached(c, s.cache, batch), disturbed := true)
  }

  /** The caller that awaits a future gives up. */
  function Cancel(s: State, f: nat): State { s.(futures := Settle(s.futures, f, Cancelled)) }

  datatype Move =
    | LoadKey(key: Key) | ClearKey(key: Key) | ClearKeys | PrimeKey(key: Key, result: Result)
    | Tick | Complete(i: nat, reply: Reply) | GiveUp(future: nat)

  function After(c: Config, s: State, move: Move): Option<State>
    requires c.Valid()
  {
    match move
    case LoadKey(key) => Some(Load(c, s, key).0)
    case ClearKey(key) => Some(Clear(c, s, key))
    case ClearKeys => Some(ClearAll(s))
    case PrimeKey(key, result) => Some(Prime(c, s, key, result))
    case Tick => if s.callbacks > 0 then Some(Dispatch(c, s)) else None
    case Complete(i, reply) => if i < |s.inflight| then Some(Finish(c, s, i, reply)) else None
    case GiveUp(f) => Some(Cancel(s, f))
  }

  ghost predicate Next(c: Config, s: State, s': State)
    requires c.Valid()
  {
    exists move :: After(c, s, move) == Some(s')
  }

  // ----- chunks ---------------------------------------------------------------------------------

  function Concat(batches: seq<seq<Ticket>>): seq<Ticket> {
    if batches == [] then [] else batches[0] + Concat(batches[1..])
  }

  /** A tick's batches concatenate to the queue in order, are non-empty and within the limit. */
  lemma {:induction false} BatchesCoverQueue(c: Config, queue: seq<Ticket>)
    requires c.Valid()
    ensures Concat(Batches(c, queue)) == queue
    ensures forall b <- Batches(c, queue) :: b != [] && (c.maxBatch.Some? ==> |b| <= c.maxBatch.value)
  {
    if queue != [] {
      if c.maxBatch.Some? {
        ChunksCover(queue, c.maxBatch.value);
      } else {
        assert [queue][1..] == [] && queue + [] == queue;
      }
    }
  }

  lemma {:induction false} ChunksCover(queue: seq<Ticket>, size: nat)
    requires size >= 1 && queue != []
    ensures Concat(Chunks(queue, size)) == queue
    ensures forall b <- Chunks(queue, size) :: b != [] && |b| <= size
  {
    if |queue| <= size {
      assert [queue][1..] == [] && queue + [] == queue;
    } else {
      ChunksCover(queue[size..], size);
      assert ([queue[..size]] + Chunks(queue[size..], size))[1..] == Chunks(queue[size..], size);
      assert queue[..size] + queue[size..] == queue;
    }
  }

  // ----- what every step keeps ------------------------------------------------------------------------

  /** Futures still expecting an answer: queued, in one running batch, or stranded by a cancelled one. */
  function Expected(s: State): seq<Ticket> { s.queue + Concat(s.inflight) + s.stranded }

  predicate Distinct(ts: seq<Ticket>) { forall i, j | 0 <= i < j < |ts| :: ts[i].future != ts[j].future }

  predicate Apart(a: seq<Ticket>, b: seq<Ticket>) { forall t <- a, u <- b :: t.future != u.future }

  predicate Numbers(ts: seq<Ticket>, f: nat) { exists t <- ts :: t.future == f }

  /** The ticket stands for a future of its own key that `load` created. */
  predicate Stands(futures: seq<Future>, t: Ticket) {
    t.future < |futures| && futures[t.future].origin.Loaded? && futures[t.future].key == t.key
  }

  predicate AnswersWith(a: Answer, j: nat, f: nat, key: Key, value: Val) {
    j < |a.batch| == |a.results| && a.batch[j] == Ticket(key, f) && a.results[j] == Good(value)
  }

  /** The batch function answered `value` for the future's own key. */
  ghost predicate Answered(answers: seq<Answer>, f: nat, key: Key, value: Val) {
    exists a <- answers, j :: AnswersWith(a, j, f, key, value)
  }

  predicate ScheduleOk(s: State) { (s.scheduled <==> s.queue != []) && s.callbacks == if s.scheduled then 1 else 0 }

  predicate TicketsOk(s: State) {
    && (forall t <- s.queue :: Stands(s.futures, t)) && (forall t <- s.dispatched :: Stands(s.futures, t))
    && Distinct(s.queue + s.dispatched)
    && (forall t <- Concat(s.inflight) + s.stranded :: t in s.dispatched) && Distinct(Concat(s.inflight) + s.stranded)
  }

  predicate NoneForgotten(s: State) {
    forall f | 0 <= f < |s.futures| && s.futures[f].outcome.Pending? :: Numbers(Expected(s), f)
  }

  ghost predicate ValuesOk(s: State) {
    && (forall f | 0 <= f < |s.futures| && s.futures[f].origin.Primed? ::
       s.futures[f].outcome == Settled(s.futures[f].origin.result))
    && forall f | 0 <= f < |s.futures| && s.futures[f].origin.Loaded? && s.futures[f].outcome.Resolved? ::
      Answered(s.answers, f, s.futures[f].key, s.futures[f].outcome.value)
  }

  predicate CacheOk(c: Config, s: State) {
    && (forall k <- s.cache :: s.cache[k] < |s.futures| && c.cacheKey(s.futures[s.cache[k]].key) == k)
    && (c.caching && !s.disturbed ==> forall f | 0 <= f < |s.futures| :: CachedAs(c, s.futures, s.cache, f))
  }

  predicate CachedAs(c: Config, futures: seq<Future>, cache: map<CacheKey, nat>, f: nat)
    requires f < |futures|
  {
    c.cacheKey(futures[f].key) in cache && cache[c.cacheKey(futures[f].key)] == f
  }

  /** Whatever is still expected has got no answer yet, though its caller may have given up. */
  predicate StillOpen(s: State) {
    forall t <- Expected(s) :: t.future < |s.futures|
      && (s.futures[t.future].outcome.Pending? || s.futures[t.future].outcome.Cancelled?)
  }

  ghost predicate Sound(c: Config, s: State) {
    ScheduleOk(s) && TicketsOk(s) && NoneForgotten(s) && StillOpen(s) && ValuesOk(s) && CacheOk(c, s)
  }

  lemma DistinctParts(a: seq<Ticket>, b: seq<Ticket>)
    ensures Distinct(a + b) <==> Distinct(a) && Distinct(b) && Apart(a, b)
  {
    var ab := a + b;
    if Distinct(ab) {
      forall i, j | 0 <= i < j < |a| ensures a[i].future != a[j].future { assert ab[i] == a[i] && ab[j] == a[j]; }
      forall i, j | 0 <= i < j < |b| ensures b[i].future != b[j].future {
        assert ab[|a| + i] == b[i] && ab[|a| + j] == b[j];
      }
      forall t, u | t in a && u in b ensures t.future != u.future {
        var i :| 0 <= i < |a| && a[i] == t;
        var j :| 0 <= j < |b| && b[j] == u;
        assert ab[i] == t && ab[|a| + j] == u;
      }
    }
    if Distinct(a) && Distinct(b) && Apart(a, b) {
      forall i, j | 0 <= i < j < |ab| ensures ab[i].future != ab[j].future {
        if i < |a| && j >= |a| { assert a[i] in a && b[j - |a|] in b; }
      }
    }
  }

  lemma {:induction false} ConcatBoth(x: seq<seq<Ticket>>, y: seq<seq<Ticket>>)
    ensures Concat(x + y) == Concat(x) + Concat(y)
  {
    if x == [] {
      assert x + y == y;
    } else {
      assert (x + y)[1..] == x[1..] + y;
      ConcatBoth(x[1..], y);
      assert x[0] + (Concat(x[1..]) + Concat(y)) == x[0] + Concat(x[1..]) + Concat(y);
    }
  }

  // ----- load, clear, prime, giving up -------------------------------------------------------------------

  lemma LoadTickets(c: Config, s: State, key: Key)
    requires TicketsOk(s) && !(c.caching && c.cacheKey(key) in s.cache)
    ensures TicketsOk(Load(c, s, key).0)
  {
    var t := Ticket(key, |s.futures|);
    var s' := Load(c, s, key).0;
    assert Apart([t], s.queue + s.dispatched) by {
      forall u | u in s.queue + s.dispatched ensures u.future != t.future { assert Stands(s.futures, u); }
    }
    DistinctParts(s.queue, s.dispatched);
    DistinctParts(s.queue, [t]);
    DistinctParts(s.queue + [t], s.dispatched);
    assert t in [t];
  }

  lemma LoadSound(c: Config, s: State, key: Key)
    requires Sound(c, s)
    ensures Sound(c, Load(c, s, key).0)
  {
    var k := c.cacheKey(key);
    if !(c.caching && k in s.cache) {
      var n := |s.futures|;
      var s' := Load(c, s, key).0;
      LoadTickets(c, s, key);
      forall f | 0 <= f < |s'.futures| && s'.futures[f].outcome.Pending? ensures Numbers(Expected(s'), f) {
        if f < n {
          assert Numbers(Expected(s), f);
          var t :| t in Expected(s) && t.future == f;
          assert t in Expected(s');
        } else {
          assert Ticket(key, n) in Expected(s');
        }
      }
      assert ValuesOk(s') by {
        forall f | 0 <= f < |s'.futures| && s'.futures[f].origin.Loaded? && s'.futures[f].outcome.Resolved?
          ensures Answered(s.answers, f, s'.futures[f].key, s'.futures[f].outcome.value)
        {
          assert s'.futures[f] == s.futures[f];
        }
      }
      NewFutureCached(c, s, key, s'.futures[n]);
    }
  }

  /** A new future takes a cache place that was free. */
  lemma NewFutureCached(c: Config, s: State, key: Key, future: Future)
    requires CacheOk(c, s) && future.key == key && !(c.caching && c.cacheKey(key) in s.cache)
    ensures var s' := s.(futures := s.futures + [future], cache := if c.caching
              then s.cache[c.cacheKey(key) := |s.futures|] else s.cache);
            CacheOk(c, s')
  {
    var s' := s.(futures := s.futures + [future], cache := if c.caching then s.cache[c.cacheKey(key) := |s.futures|]
        else s.cache);
    if c.caching && !s.disturbed {
      forall f | 0 <= f < |s'.futures| ensures CachedAs(c, s'.futures, s'.cache, f) {
        if f < |s.futures| { assert CachedAs(c, s.futures, s.cache, f); }
      }
    }
  }

  lemma PrimeSound(c: Config, s: State, key: Key, result: Result)
    requires Sound(c, s)
    ensures Sound(c, Prime(c, s, key, result))
  {
    var k := c.cacheKey(key);
    if c.caching && k !in s.cache {
      var s' := Prime(c, s, key, result);
      NewFutureCached(c, s, key, Future(key, Primed(result), Settled(result)));
      forall f | 0 <= f < |s'.futures| && s'.futures[f].outcome.Pending? ensures Numbers(Expected(s'), f) {
        assert Numbers(Expected(s), f);
      }
      forall f | 0 <= f < |s'.futures| && s'.futures[f].origin.Loaded? && s'.futures[f].outcome.Resolved?
        ensures Answered(s.answers, f, s'.futures[f].key, s'.futures[f].outcome.value)
      {
        assert s'.futures[f] == s.futures[f];
      }
    }
  }

  // ----- dispatch ----------------------------------------------------------------------------------------

  lemma DispatchSound(c: Config, s: State)
    requires c.Valid() && Sound(c, s) && s.callbacks > 0
    ensures Sound(c, Dispatch(c, s))
  {
    var s' := Dispatch(c, s);
    var running := Concat(s.inflight);
    BatchesCoverQueue(c, s.queue);
    ConcatBoth(s.inflight, Batches(c, s.queue));
    DispatchedDistinct(s, running);
    assert [] + s'.dispatched == s'.dispatched;
    forall f | 0 <= f < |s'.futures| && s'.futures[f].outcome.Pending? ensures Numbers(Expected(s'), f) {
      assert Numbers(Expected(s), f);
      var t :| t in Expected(s) && t.future == f;
      assert t in Expected(s');
    }
  }

  lemma DispatchedDistinct(s: State, running: seq<Ticket>)
    requires TicketsOk(s) && running == Concat(s.inflight)
    ensures Distinct(s.dispatched + s.queue) && Distinct(running + s.queue + s.stranded)
  {
    DistinctParts(s.queue, s.dispatched);
    DistinctParts(s.dispatched, s.queue);
    DistinctParts(running, s.stranded);
    forall t, u | t in running + s.stranded && u in s.queue ensures t.future != u.future {
      assert t in s.dispatched;
    }
    assert forall t <- running :: t in running + s.stranded;
    assert forall t <- s.stranded :: t in running + s.stranded;
    DistinctParts(running, s.queue);
    DistinctParts(running + s.queue, s.stranded);
  }

  // ----- completion --------------------------------------------------------------------------------------

  /** What settling a batch does to each future: one of its own results when it was pending, else nothing. */
  lemma {:induction false} SettleExact(futures: seq<Future>, batch: seq<Ticket>, results: seq<Result>, f: nat)
    requires |batch| == |results| && f < |futures|
    ensures var r := SettleAll(futures, batch, results);
            && (Numbers(batch, f) ==> !r[f].outcome.Pending?)
            && (r[f] == futures[f]
                || (futures[f].outcome.Pending?
                    && exists j | 0 <= j < |batch| ::
                         batch[j].future == f && r[f] == futures[f].(outcome := Settled(results[j]))))
    decreases |batch|
  {
    if batch != [] {
      var n := |batch| - 1;
      SettleExact(futures, batch[..n], results[..n], f);
      assert batch == batch[..n] + [batch[n]];
      var before := SettleAll(futures, batch[..n], results[..n]);
      if before[f] != futures[f] {
        var j :| 0 <= j < n && batch[..n][j].future == f
            && before[f] == futures[f].(outcome := Settled(results[..n][j]));
        assert batch[j].future == f && results[j] == results[..n][j];
      }
    }
  }

  lemma {:induction false} RejectExact(futures: seq<Future>, batch: seq<Ticket>, f: nat)
    requires f < |futures|
    ensures var r := RejectAll(futures, batch);
            && (Numbers(batch, f) ==> !r[f].outcome.Pending?)
            && (r[f] == futures[f] || (Numbers(batch, f) && futures[f].outcome.Pending?
               && r[f] == futures[f].(outcome := Rejected)))
    decreases |batch|
  {
    if batch != [] {
      var n := |batch| - 1;
      RejectExact(futures, batch[..n], f);
      assert batch == batch[..n] + [batch[n]];
    }
  }

  lemma {:induction false} UncachedLess(c: Config, cache: map<CacheKey, nat>, batch: seq<Ticket>)
    ensures forall k <- Uncached(c, cache, batch) :: k in cache && Uncached(c, cache, batch)[k] == cache[k]
    decreases |batch|
  {
    if batch != [] && c.caching { UncachedLess(c, cache, batch[..|batch| - 1]); }
  }

  /** Taking a batch out of the running ones. */
  lemma BatchOut(s: State, i: nat)
    requires i < |s.inflight| && TicketsOk(s)
    ensures var rest := Concat(s.inflight[..i] + s.inflight[i + 1..]);
            && (forall t <- s.inflight[i] :: t in s.dispatched)
            && (forall t <- rest + s.stranded :: t in s.dispatched) && Distinct(rest + s.stranded)
               && Distinct(rest + (s.stranded + s.inflight[i]))
            && (forall t <- Concat(s.inflight) :: t in rest || t in s.inflight[i])
  {
    var x, b, y := s.inflight[..i], s.inflight[i], s.inflight[i + 1..];
    assert s.inflight == x + ([b] + y);
    ConcatBoth(x, [b] + y);
    ConcatBoth([b], y);
    ConcatBoth(x, y);
    assert [b][1..] == [] && b + [] == b;
    var cx, cy, st := Concat(x), Concat(y), s.stranded;
    assert Concat(s.inflight) == cx + (b + cy);
    PartsDistinct(cx, b, cy, st);
  }

  lemma PartsDistinct(x: seq<Ticket>, b: seq<Ticket>, y: seq<Ticket>, st: seq<Ticket>)
    requires Distinct(x + (b + y) + st)
    ensures Distinct(x + y + st) && Distinct(x + y + (st + b))
  {
    DistinctParts(x + (b + y), st);
    DistinctParts(x, b + y);
    DistinctParts(b, y);
    DistinctParts(x, y);
    DistinctParts(x + y, st);
    DistinctParts(st, b);
    DistinctParts(x + y, st + b);
  }

  lemma FinishTickets(c: Config, s: State, i: nat, reply: Reply)
    requires TicketsOk(s) && i < |s.inflight|
    ensures TicketsOk(Finish(c, s, i, reply))
  {
    BatchOut(s, i);
    var s' := Finish(c, s, i, reply);
    forall f | 0 <= f < |s.futures| ensures s'.futures[f].(outcome := s.futures[f].outcome) == s.futures[f] {
      FinishOutcome(c, s, i, reply, f);
    }
    forall t | t in s.queue || t in s.dispatched ensures Stands(s'.futures, t) { assert Stands(s.futures, t); }
  }

  /** A completed batch settles its own pending futures and touches nothing else. */
  lemma FinishOutcome(c: Config, s: State, i: nat, reply: Reply, f: nat)
    requires i < |s.inflight| && f < |s.futures|
    ensures var s' := Finish(c, s, i, reply);
            && |s'.futures| == |s.futures|
            && s'.futures[f].(outcome := s.futures[f].outcome) == s.futures[f]
            && (s'.futures[f] != s.futures[f] ==> s.futures[f].outcome.Pending? && Numbers(s.inflight[i], f))
            && (!reply.Aborted? && Numbers(s.inflight[i], f) ==> !s'.futures[f].outcome.Pending?)
            && (s'.futures[f] != s.futures[f] && s'.futures[f].outcome.Resolved? ==>
                  reply.Returned? && |reply.results| == |s.inflight[i]|
                  && exists j | 0 <= j < |s.inflight[i]| ::
                       s.inflight[i][j].future == f
                       && s'.futures[f].outcome == Settled(reply.results[j]))
  {
    var batch := s.inflight[i];
    RejectExact(s.futures, batch, f);
    if reply.Returned? && |reply.results| == |batch| { SettleExact(s.futures, batch, reply.results, f); }
  }

  lemma FinishForgetsNone(c: Config, s: State, i: nat, reply: Reply)
    requires TicketsOk(s) && NoneForgotten(s) && i < |s.inflight|
    ensures NoneForgotten(Finish(c, s, i, reply))
  {
    BatchOut(s, i);
    var s' := Finish(c, s, i, reply);
    forall f | 0 <= f < |s'.futures| && s'.futures[f].outcome.Pending? ensures Numbers(Expected(s'), f) {
      FinishOutcome(c, s, i, reply, f);
      assert Numbers(Expected(s), f);
      var t :| t in Expected(s) && t.future == f;
      assert t in s.inflight[i] ==> Numbers(s.inflight[i], f);
      assert t in Expected(s');
    }
  }

  /** No other ticket shares a future with the batch taken out. */
  lemma BatchApart(s: State, i: nat)
    requires i < |s.inflight| && TicketsOk(s)
    ensures Apart(s.queue + Concat(s.inflight[..i] + s.inflight[i + 1..]) + s.stranded, s.inflight[i])
  {
    var rest, batch := Concat(s.inflight[..i] + s.inflight[i + 1..]), s.inflight[i];
    BatchOut(s, i);
    DistinctParts(rest, s.stranded + batch);
    DistinctParts(s.stranded, batch);
    DistinctParts(s.queue, s.dispatched);
    assert forall u <- batch :: u in s.stranded + batch;
  }

  lemma FinishLeavesOpen(c: Config, s: State, i: nat, reply: Reply)
    requires TicketsOk(s) && StillOpen(s) && i < |s.inflight|
    ensures StillOpen(Finish(c, s, i, reply))
  {
    var s' := Finish(c, s, i, reply);
    BatchOut(s, i);
    BatchApart(s, i);
    InflightKept(s, i);
    forall t <- Expected(s')
      ensures t.future < |s'.futures| && (s'.futures[t.future].outcome.Pending?
                || s'.futures[t.future].outcome.Cancelled?)
    {
      assert t in Expected(s);
      FinishOutcome(c, s, i, reply, t.future);
      if !reply.Aborted? {
        assert t in s.queue + Concat(s.inflight[..i] + s.inflight[i + 1..]) + s.stranded;
        assert !Numbers(s.inflight[i], t.future);
      }
    }
  }

  lemma InflightKept(s: State, i: nat)
    requires i < |s.inflight|
    ensures forall t <- Concat(s.inflight[..i] + s.inflight[i + 1..]) + s.inflight[i] :: t in Concat(s.inflight)
  {
    var x, b, y := s.inflight[..i], s.inflight[i], s.inflight[i + 1..];
    assert s.inflight == x + ([b] + y);
    ConcatBoth(x, [b] + y);
    ConcatBoth([b], y);
    ConcatBoth(x, y);
    assert [b][1..] == [] && b + [] == b;
  }

  lemma FinishValues(c: Config, s: State, i: nat, reply: Reply)
    requires TicketsOk(s) && ValuesOk(s) && i < |s.inflight|
    ensures ValuesOk(Finish(c, s, i, reply))
  {
    BatchOut(s, i);
    var s' := Finish(c, s, i, reply);
    forall f | 0 <= f < |s'.futures| && s'.futures[f].origin.Primed?
      ensures s'.futures[f].outcome == Settled(s'.futures[f].origin.result)
    {
      FinishOutcome(c, s, i, reply, f);
    }
    forall f | 0 <= f < |s'.futures| && s'.futures[f].origin.Loaded? && s'.futures[f].outcome.Resolved?
      ensures Answered(s'.answers, f, s'.futures[f].key, s'.futures[f].outcome.value)
    {
      FinishOutcome(c, s, i, reply, f);
      if s'.futures[f] == s.futures[f] {
        var a, j :| a in s.answers && AnswersWith(a, j, f, s.futures[f].key, s.futures[f].outcome.value);
        assert a in s'.answers;
      } else {
        var batch := s.inflight[i];
        var j :| 0 <= j < |batch| && batch[j].future == f && s'.futures[f].outcome == Settled(reply.results[j]);
        assert batch[j] in batch && Stands(s.futures, batch[j]);
        assert AnswersWith(Answer(batch, reply.results), j, f, s'.futures[f].key, s'.futures[f].outcome.value);
        assert Answer(batch, reply.results) in s'.answers;
      }
    }
  }

  lemma FinishSound(c: Config, s: State, i: nat, reply: Reply)
    requires Sound(c, s) && i < |s.inflight|
    ensures Sound(c, Finish(c, s, i, reply))
  {
    FinishTickets(c, s, i, reply);
    FinishForgetsNone(c, s, i, reply);
    FinishLeavesOpen(c, s, i, reply);
    FinishValues(c, s, i, reply);
    FinishCache(c, s, i, reply);
  }

  lemma FinishCache(c: Config, s: State, i: nat, reply: Reply)
    requires CacheOk(c, s) && i < |s.inflight|
    ensures CacheOk(c, Finish(c, s, i, reply))
  {
    var s' := Finish(c, s, i, reply);
    UncachedLess(c, s.cache, s.inflight[i]);
    forall f | 0 <= f < |s.futures| ensures s'.futures[f].key == s.futures[f].key
      && (CachedAs(c, s.futures, s.cache, f) && !s'.disturbed ==> CachedAs(c, s'.futures, s'.cache, f)) {
      FinishOutcome(c, s, i, reply, f);
    }
  }

  lemma CancelSound(c: Config, s: State, f: nat)
    requires Sound(c, s)
    ensures Sound(c, Cancel(s, f))
  {
    var s' := Cancel(s, f);
    forall g | 0 <= g < |s.futures| ensures s'.futures[g] == s.futures[g]
      || (g == f && s'.futures[g] == s.futures[g].(outcome := Cancelled)) {}
    forall t | t in s.queue || t in s.dispatched ensures Stands(s'.futures, t) { assert Stands(s.futures, t); }
    forall g | 0 <= g < |s'.futures| && s'.futures[g].outcome.Pending? ensures Numbers(Expected(s'), g) {
      assert Numbers(Expected(s), g);
    }
    forall g | 0 <= g < |s'.futures| && CachedAs(c, s.futures, s.cache, g)
      ensures CachedAs(c, s'.futures, s'.cache, g) {}
  }

  lemma ClearSound(c: Config, s: State, keys: set<CacheKey>)
    requires Sound(c, s)
    ensures Sound(c, s.(cache := s.cache - keys, disturbed := true))
  {
    var s' := s.(cache := s.cache - keys, disturbed := true);
    forall f | 0 <= f < |s'.futures| && s'.futures[f].outcome.Pending? ensures Numbers(Expected(s'), f) {
      assert Numbers(Expected(s), f);
    }
  }

  lemma StepSound(c: Config, s: State, move: Move)
    requires c.Valid() && Sound(c, s) && After(c, s, move).Some?
    ensures Sound(c, After(c, s, move).value)
  {
    match move
    case LoadKey(key) => LoadSound(c, s, key);
    case ClearKey(key) => ClearSound(c, s, {c.cacheKey(key)});
    case ClearKeys =>
      ClearSound(c, s, s.cache.Keys);
      assert s.cache - s.cache.Keys == map[];
    case PrimeKey(key, result) => PrimeSound(c, s, key, result);
    case Tick => DispatchSound(c, s);
    case Complete(i, reply) => FinishSound(c, s, i, reply);
    case GiveUp(f) => CancelSound(c, s, f);
  }

  // ----- the promises -------------------------------------------------------------------------------------

  ghost predicate Reachable(c: Config, s: State, steps: nat)
    requires c.Valid()
  {
    Run((a, b) => Next(c, a, b), Fresh(), s, steps)
  }

  lemma RunsAreSound(c: Config, s: State, steps: nat)
    requires c.Valid() && Reachable(c, s, steps)
    ensures Sound(c, s)
  {
    var next := (a, b) => Next(c, a, b);
    forall a, b | Sound(c, a) && next(a, b) ensures Sound(c, b) {
      var move :| After(c, a, move) == Some(b);
      StepSound(c, a, move);
    }
    RunKeeps(next, a => Sound(c, a), Fresh(), s, steps);
  }

  /** A future that is done stays as it is: nothing is resolved twice. */
  lemma DoneStaysDone(c: Config, s: State, move: Move, f: nat)
    requires c.Valid() && After(c, s, move).Some? && f < |s.futures| && !s.futures[f].outcome.Pending?
    ensures var s' := After(c, s, move).value; f < |s'.futures| && s'.futures[f] == s.futures[f]
  {
    if move.Complete? { FinishOutcome(c, s, move.i, move.reply, f); }
  }

  /** In every run: each future that is still expected stands in exactly one place, and the pending ones are
      exactly those expected that nobody gave up; a dispatch is scheduled exactly when something is queued. */
  lemma EachFutureExpectedOnce(c: Config, s: State, steps: nat)
    requires c.Valid() && Reachable(c, s, steps)
    ensures Distinct(Expected(s))
    ensures forall f | 0 <= f < |s.futures| ::
              s.futures[f].outcome.Pending? <==> Numbers(Expected(s), f) && !s.futures[f].outcome.Cancelled?
    ensures (s.callbacks == 1 <==> s.queue != []) && s.callbacks <= 1
  {
    RunsAreSound(c, s, steps);
    DistinctParts(s.queue, s.dispatched);
    assert Apart(s.queue, Concat(s.inflight) + s.stranded) by {
      forall t, u | t in s.queue && u in Concat(s.inflight) + s.stranded ensures t.future != u.future {
        assert u in s.dispatched;
      }
    }
    DistinctParts(s.queue, Concat(s.inflight) + s.stranded);
    assert s.queue + (Concat(s.inflight) + s.stranded) == Expected(s);
  }

  /** With nothing queued or running, a future is pending exactly when a batch that held it was cancelled and
      nobody gave the future up. */
  lemma PendingExactlyWhenStranded(c: Config, s: State, steps: nat, f: nat)
    requires c.Valid() && Reachable(c, s, steps) && s.queue == [] && s.inflight == [] && f < |s.futures|
    ensures s.futures[f].outcome.Pending? <==> Numbers(s.stranded, f) && !s.futures[f].outcome.Cancelled?
  {
    EachFutureExpectedOnce(c, s, steps);
    assert Expected(s) == s.stranded;
  }

  /** A step other than giving up that very future. */
  ghost predicate NextKeeping(c: Config, f: nat, s: State, s': State)
    requires c.Valid()
  {
    exists move :: move != GiveUp(f) && After(c, s, move) == Some(s')
  }

  predicate WaitsStranded(s: State, f: nat) {
    f < |s.futures| && s.futures[f].outcome.Pending? && Numbers(s.stranded, f)
  }

  lemma StrandedStepWaits(c: Config, s: State, move: Move, f: nat)
    requires c.Valid() && Sound(c, s) && WaitsStranded(s, f) && move != GiveUp(f) && After(c, s, move).Some?
    ensures WaitsStranded(After(c, s, move).value, f)
  {
    var t :| t in s.stranded && t.future == f;
    if move.Complete? {
      BatchApart(s, move.i);
      assert t in s.queue + Concat(s.inflight[..move.i] + s.inflight[move.i + 1..]) + s.stranded;
      FinishOutcome(c, s, move.i, move.reply, f);
    }
    assert t in After(c, s, move).value.stranded;
  }

  /** And there it stays for ever: whatever is loaded, cleared, primed, dispatched or completed from then on,
      it is pending until its own caller gives it up. */
  lemma StrandedWaitsForever(c: Config, s: State, steps: nat, f: nat, later: State, more: nat)
    requires c.Valid() && Reachable(c, s, steps) && WaitsStranded(s, f)
    requires Run((a, b) => NextKeeping(c, f, a, b), s, later, more)
    ensures WaitsStranded(later, f)
  {
    RunsAreSound(c, s, steps);
    var next := (a, b) => NextKeeping(c, f, a, b);
    var keeps := a => Sound(c, a) && WaitsStranded(a, f);
    forall a, b | keeps(a) && next(a, b) ensures keeps(b) {
      var move :| move != GiveUp(f) && After(c, a, move) == Some(b);
      StepSound(c, a, move);
      StrandedStepWaits(c, a, move, f);
    }
    RunKeeps(next, keeps, s, later, more);
  }

  /** In every run: a future that is resolved holds, when `load` created it, what the batch function answered
      for the future's own key, so with a batch function that looks keys up the looked-up value; and when
      `prime` created it, the primed value. */
  lemma ResolvedAsLookedUp(c: Config, s: State, steps: nat, fetch: Key -> Result, f: nat)
    requires c.Valid() && Reachable(c, s, steps)
    requires forall a <- s.answers, j | 0 <= j < |a.batch| == |a.results| :: a.results[j] == fetch(a.batch[j].key)
    requires f < |s.futures| && s.futures[f].outcome.Resolved?
    ensures (if s.futures[f].origin.Loaded? then fetch(s.futures[f].key) else s.futures[f].origin.result)
            == Good(s.futures[f].outcome.value)
  {
    RunsAreSound(c, s, steps);
    if s.futures[f].origin.Loaded? {
      var a, j :| a in s.answers && AnswersWith(a, j, f, s.futures[f].key, s.futures[f].outcome.value);
    }
  }

  /** `load` returns a future for the key asked: of the same cache key, and without caching of that very
      key and never seen before. */
  lemma LoadReturnsOwnKey(c: Config, s: State, steps: nat, key: Key)
    requires c.Valid() && Reachable(c, s, steps)
    ensures var (s', f) := Load(c, s, key);
            && f < |s'.futures| && c.cacheKey(s'.futures[f].key) == c.cacheKey(key)
            && (!c.caching ==> f == |s.futures| && s'.futures[f].key == key)
  {
    RunsAreSound(c, s, steps);
  }

  /** In every run with caching, without clears and failed batches: the keys dispatched over the whole
      run have pairwise distinct cache keys. */
  lemma FetchedAtMostOnce(c: Config, s: State, steps: nat, i: nat, j: nat)
    requires c.Valid() && Reachable(c, s, steps) && c.caching && !s.disturbed
    requires i < j < |s.dispatched|
    ensures c.cacheKey(s.dispatched[i].key) != c.cacheKey(s.dispatched[j].key)
  {
    RunsAreSound(c, s, steps);
    DistinctParts(s.queue, s.dispatched);
    var t, u := s.dispatched[i], s.dispatched[j];
    assert Stands(s.futures, t) && Stands(s.futures, u);
    assert CachedAs(c, s.futures, s.cache, t.future) && CachedAs(c, s.futures, s.cache, u.future);
  }

  lemma Take(c: Config, s: State, steps: nat, move: Move) returns (s': State)
    requires c.Valid() && Reachable(c, s, steps) && After(c, s, move).Some?
    ensures Reachable(c, s', steps + 1) && After(c, s, move) == Some(s')
  {
    s' := After(c, s, move).value;
    RunLonger((a, b) => Next(c, a, b), Fresh(), s, s', steps);
  }

  /** A batch function that is cancelled leaves its futures pending with nothing queued or running. */
  lemma CancelledBatchStrands(c: Config) returns (s: State)
    requires c.Valid()
    ensures Reachable(c, s, 3) && s.queue == [] && s.inflight == []
    ensures |s.futures| == 1 && s.futures[0].outcome.Pending? && s.stranded == [Ticket(1, 0)]
  {
    s := Take(c, Fresh(), 0, LoadKey(1));
    assert s.queue == [Ticket(1, 0)] && s.futures == [Future(1, Loaded, Pending)];
    s := Take(c, s, 1, Tick);
    assert s.inflight == [[Ticket(1, 0)]] && s.queue == [];
    s := Take(c, s, 2, Complete(0, Aborted));
  }
}
