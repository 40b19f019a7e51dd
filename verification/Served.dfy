/** Every job is served, errors or not: a run of incremental delivery brings one payload for each deferred
    fragment and each streamed item that its jobs lead to, and announces its end exactly when it is complete. */
module Served {
  import opened Ast
  import opened CollectFields
  import opened Executor
  import opened NullPropagation
  import opened Incremental
  import opened Delivery

  /** What a payload brings, whether or not more follow. */
  datatype Part = Part(path: Path, json: Json, errors: seq<Error>, item: bool)

  function PartOf(p: Payload): Part { Part(p.path, p.json, p.errors, p.item) }

  function Brought(ps: seq<Payload>): multiset<Part> {
    if ps == [] then multiset{} else multiset{PartOf(ps[0])} + Brought(ps[1..])
  }

  lemma BroughtOne(p: Payload, rest: seq<Payload>)
    ensures Brought([p] + rest) == multiset{PartOf(p)} + Brought(rest)
  {
    assert ([p] + rest)[1..] == rest;
  }

  // ----- what jobs lead to, whatever order they are served in ---------------------------------------

  function ItemPart(x: Exec, job: StreamJob): multiset<Part>
    requires Finite(x) && job.nodes != [] && job.items != []
  {
    var out := ResolveItem(x, job);
    if out.ending.Data? then multiset{Part(ItemPath(job), out.ending.json, out.errors, true)} else multiset{}
  }

  /** A deferred fragment's part and those of the jobs it leaves. */
  function PartsOfDeferred(x: Exec, job: DeferJob): multiset<Part>
    requires Finite(x)
    decreases Size(job.selections, x.weight), 1, 0, 0, 1, 0
  {
    var out := ResolveDeferred(x, job);
    ResolvedDeferredSmaller(x, job);
    DeferredStep(x, [job], []);
    multiset{Part(job.path, out.ending.json, out.errors, false)}
    + PartsOfAll(x, out.deferred, out.streamed, DeferRank(x, job))
  }

  /** A stream's items' parts and those of the jobs they leave. */
  function PartsOfStream(x: Exec, job: StreamJob): multiset<Part>
    requires Finite(x) && job.nodes != [] && job.items != []
    decreases Size(job.nodes, x.weight), 0, Depth(job.ofType), |job.items|, 1, 0
  {
    var out := ResolveItem(x, job);
    ResolvedItemSmaller(x, job);
    ItemPart(x, job) + PartsOfAll(x, out.deferred, out.streamed, StreamRank(x, job))
    + if |job.items| == 1 then multiset{}
      else PartsOfStream(x, job.(items := job.items[1..], next := job.next + 1))
  }

  function PartsOfAll(x: Exec, deferred: seq<DeferJob>, streamed: seq<StreamJob>, r: Rank): multiset<Part>
    requires Finite(x) && Smaller(x, deferred, streamed, r)
    decreases r.size, r.kind, r.depth, r.length, 0, |deferred| + |streamed|
  {
    if deferred != [] then
      assert Less(DeferRank(x, deferred[0]), r);
      PartsOfDeferred(x, deferred[0]) + PartsOfAll(x, deferred[1..], streamed, r)
    else if streamed != [] then
      assert Less(StreamRank(x, streamed[0]), r);
      PartsOfStream(x, streamed[0]) + PartsOfAll(x, deferred, streamed[1..], r)
    else multiset{}
  }

  function DeferredSum(x: Exec, deferred: seq<DeferJob>): multiset<Part>
    requires Finite(x)
  {
    if deferred == [] then multiset{} else PartsOfDeferred(x, deferred[0]) + DeferredSum(x, deferred[1..])
  }

  function StreamedSum(x: Exec, streamed: seq<StreamJob>): multiset<Part>
    requires Finite(x) && Servable(streamed)
  {
    if streamed == [] then multiset{} else PartsOfStream(x, streamed[0]) + StreamedSum(x, streamed[1..])
  }

  function Parts(x: Exec, deferred: seq<DeferJob>, streamed: seq<StreamJob>): multiset<Part>
    requires Finite(x) && Servable(streamed)
  {
    DeferredSum(x, deferred) + StreamedSum(x, streamed)
  }

  lemma {:induction false} PartsIsAll(x: Exec, deferred: seq<DeferJob>, streamed: seq<StreamJob>, r: Rank)
    requires Finite(x) && Smaller(x, deferred, streamed, r)
    ensures PartsOfAll(x, deferred, streamed, r) == Parts(x, deferred, streamed)
    decreases |deferred| + |streamed|
  {
    if deferred != [] { PartsIsAll(x, deferred[1..], streamed, r); }
    else if streamed != [] { PartsIsAll(x, deferred, streamed[1..], r); }
  }

  lemma {:induction false} DeferredAdd(x: Exec, a: seq<DeferJob>, b: seq<DeferJob>)
    requires Finite(x)
    ensures DeferredSum(x, a + b) == DeferredSum(x, a) + DeferredSum(x, b)
  {
    if a == [] {
      assert a + b == b;
    } else {
      assert (a + b)[1..] == a[1..] + b;
      DeferredAdd(x, a[1..], b);
    }
  }

  lemma {:induction false} StreamedAdd(x: Exec, a: seq<StreamJob>, b: seq<StreamJob>)
    requires Finite(x) && Servable(a) && Servable(b)
    ensures Servable(a + b) && StreamedSum(x, a + b) == StreamedSum(x, a) + StreamedSum(x, b)
  {
    if a == [] {
      assert a + b == b;
    } else {
      assert (a + b)[1..] == a[1..] + b;
      StreamedAdd(x, a[1..], b);
    }
  }

  lemma RestSum(x: Exec, job: StreamJob)
    requires Finite(x) && job.nodes != [] && job.items != []
    ensures Servable(Rest(job))
    ensures StreamedSum(x, Rest(job))
            == if |job.items| == 1 then multiset{}
               else PartsOfStream(x, job.(items := job.items[1..], next := job.next + 1))
  {
    if |job.items| > 1 { assert Rest(job)[1..] == []; }
  }

  lemma DeferredParts(x: Exec, deferred: seq<DeferJob>, streamed: seq<StreamJob>)
    requires Finite(x) && Servable(streamed) && deferred != []
    ensures var job := deferred[0];
            var out := ResolveDeferred(x, job);
            && out.ending.Data? && Servable(streamed + out.streamed)
            && Parts(x, deferred, streamed)
               == multiset{Part(job.path, out.ending.json, out.errors, false)}
                  + Parts(x, deferred[1..] + out.deferred, streamed + out.streamed)
  {
    var out := ResolveDeferred(x, deferred[0]);
    DeferredStep(x, deferred, streamed);
    ResolvedDeferredSmaller(x, deferred[0]);
    PartsIsAll(x, out.deferred, out.streamed, DeferRank(x, deferred[0]));
    DeferredAdd(x, deferred[1..], out.deferred);
    StreamedAdd(x, streamed, out.streamed);
  }

  lemma ItemParts(x: Exec, streamed: seq<StreamJob>)
    requires Finite(x) && Servable(streamed) && streamed != []
    ensures var job := streamed[0];
            var out := ResolveItem(x, job);
            && Servable(Rest(job) + streamed[1..] + out.streamed)
            && Parts(x, [], streamed)
               == ItemPart(x, job) + Parts(x, out.deferred, Rest(job) + streamed[1..] + out.streamed)
  {
    var job := streamed[0];
    var out := ResolveItem(x, job);
    ResolvedItemSmaller(x, job);
    PartsIsAll(x, out.deferred, out.streamed, StreamRank(x, job));
    RestSum(x, job);
    StreamedAdd(x, Rest(job), streamed[1..]);
    StreamedAdd(x, Rest(job) + streamed[1..], out.streamed);
  }

  // ----- a run brings them all ------------------------------------------------------------------------

  /** Every payload but the last announces another, and the last does not. */
  predicate Announces(ps: seq<Payload>) { forall i | 0 <= i < |ps| :: ps[i].hasNext <==> i < |ps| - 1 }

  /** The head item of some stream runs into an exception that is no GraphQL error. */
  ghost predicate SomeCrash(x: Exec)
    requires Finite(x)
  {
    exists job: StreamJob :: Crashes(x, job)
  }

  predicate Crashes(x: Exec, job: StreamJob)
    requires Finite(x)
  {
    job.nodes != [] && job.items != [] && ResolveItem(x, job).ending.Crash?
  }

  /** Either the run is complete and says so, or it breaks off while more is announced. */
  ghost predicate Serves(x: Exec, ps: seq<Payload>, parts: multiset<Part>)
    requires Finite(x)
  {
    || (Brought(ps) == parts && Announces(ps))
    || (SomeCrash(x) && Brought(ps) <= parts && forall p <- ps :: p.hasNext)
  }

  lemma ServesOne(x: Exec, p: Payload, rest: seq<Payload>, parts: multiset<Part>, more: bool)
    requires Finite(x) && Serves(x, rest, parts) && p.hasNext == more
    requires more || rest == []
    requires more && rest == [] ==> SomeCrash(x)
    requires !more ==> parts == multiset{}
    ensures Serves(x, [p] + rest, multiset{PartOf(p)} + parts)
  {
    BroughtOne(p, rest);
    var ps := [p] + rest;
    assert forall i | 0 < i < |ps| :: ps[i] == rest[i - 1];
  }

  ghost predicate ServesAll(x: Exec, deferred: seq<DeferJob>, streamed: seq<StreamJob>)
    requires Finite(x) && Servable(streamed)
  {
    var ps := Payloads(x, deferred, streamed);
    && Serves(x, ps, Parts(x, deferred, streamed))
    && (ps == [] ==> (deferred == [] && streamed == []) || SomeCrash(x))
  }

  lemma FirstServed(x: Exec, p: Payload, d: seq<DeferJob>, s: seq<StreamJob>)
    requires Finite(x) && Servable(s) && ServesAll(x, d, s) && p.hasNext == (d != [] || s != [])
    ensures Serves(x, [p] + Payloads(x, d, s), multiset{PartOf(p)} + Parts(x, d, s))
  {
    ServesOne(x, p, Payloads(x, d, s), Parts(x, d, s), d != [] || s != []);
  }

  lemma {:induction false} PayloadsServe(x: Exec, deferred: seq<DeferJob>, streamed: seq<StreamJob>)
    requires Finite(x) && Servable(streamed)
    ensures ServesAll(x, deferred, streamed)
    decreases Pending(x, deferred, streamed)
  {
    if deferred != [] {
      var out := ResolveDeferred(x, deferred[0]);
      var d, s := deferred[1..] + out.deferred, streamed + out.streamed;
      DeferredStep(x, deferred, streamed);
      DeferredParts(x, deferred, streamed);
      PayloadsServe(x, d, s);
      FirstServed(x, Payload(deferred[0].path, out.ending.json, out.errors, d != [] || s != [], false), d, s);
    } else if streamed != [] {
      var job := streamed[0];
      var out := ResolveItem(x, job);
      ItemStep(x, streamed);
      if out.ending.Crash? {
        assert Crashes(x, job);
      } else {
        var d, s := out.deferred, Rest(job) + streamed[1..] + out.streamed;
        ItemParts(x, streamed);
        PayloadsServe(x, d, s);
        FirstServed(x, Payload(ItemPath(job), out.ending.json, out.errors, d != [] || s != [], true), d, s);
      }
    }
  }

  /** Every run, errors or not, brings the first response and exactly one part for each deferred fragment and
      each streamed item the jobs lead to, and `hasNext` is false on its last payload only; unless an item runs
      into another exception, which breaks the run off while more is announced. */
  lemma EveryJobServed(x: Exec, rootType: string, rootValue: PyValue, ss: seq<Selection>, mutation: bool)
    requires Finite(x)
    ensures var out := ExecuteOperation(x, rootType, rootValue, ss, mutation);
            && out.ending.Data? && Servable(out.streamed)
            && Serves(x, RunIncremental(x, rootType, rootValue, ss, mutation),
                 multiset{Part([], out.ending.json, out.errors, false)} + Parts(x, out.deferred, out.streamed))
  {
    var out := ExecuteOperation(x, rootType, rootValue, ss, mutation);
    OperationServable(x, rootType, rootValue, ss, mutation);
    PayloadsServe(x, out.deferred, out.streamed);
    FirstServed(x, RunIncremental(x, rootType, rootValue, ss, mutation)[0], out.deferred, out.streamed);
  }
}
