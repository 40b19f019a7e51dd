/** The order of streamed items: however deferred fragments and several streams mix, the items of each
    streamed list arrive one after the other, from its initial count to its end. */
module Streaming {
  import opened Ast
  import opened CollectFields
  import opened Executor
  import opened NullPropagation
  import opened Reports
  import opened Gist
  import opened Incremental
  import opened Delivery
  import opened StreamedGroups

  // ----- the paths of streamed items --------------------------------------------------------------

  /** The paths of the payloads that are streamed items, in the order of delivery. */
  function ItemPaths(payloads: seq<Payload>): seq<Path> {
    if payloads == [] then []
    else (if payloads[0].item then [payloads[0].path] else []) + ItemPaths(payloads[1..])
  }

  /** A list's remaining indices, one after the other. */
  function JobPaths(job: StreamJob): seq<Path> {
    seq(|job.items|, i requires 0 <= i < |job.items| => job.path + [Index(job.next + i)])
  }

  function QueuePaths(jobs: seq<StreamJob>): seq<Path> {
    if jobs == [] then [] else JobPaths(jobs[0]) + QueuePaths(jobs[1..])
  }

  lemma ItemPathsOne(p: Payload, rest: seq<Payload>)
    ensures ItemPaths([p] + rest) == (if p.item then [p.path] else []) + ItemPaths(rest)
  {
    assert ([p] + rest)[1..] == rest;
  }

  /** Serving a job's head leaves the rest of its indices. */
  lemma HeadServed(job: StreamJob, later: seq<StreamJob>)
    requires job.items != []
    ensures [ItemPath(job)] + QueuePaths(Rest(job) + later) == QueuePaths([job] + later)
  {
    assert ([job] + later)[1..] == later;
    if |job.items| == 1 {
      assert Rest(job) + later == later && JobPaths(job) == [ItemPath(job)];
    } else {
      var rest := Rest(job)[0];
      assert (Rest(job) + later)[0] == rest && (Rest(job) + later)[1..] == later;
      assert JobPaths(job) == [ItemPath(job)] + JobPaths(rest);
    }
  }

  /** The item payloads still to come are those of the queued lists, in queue order, and then those of the lists
      that the pending jobs lead to, each whole and in order. */
  lemma {:induction false} QueuedInOrder(x: Exec, deferred: seq<DeferJob>, streamed: seq<StreamJob>)
    returns (more: seq<StreamJob>)
    requires Finite(x) && x.incremental && JobsOk(OneShot(x), deferred, streamed) && Servable(streamed)
    ensures multiset(more) == Due(x, deferred, streamed)
            && ItemPaths(Payloads(x, deferred, streamed)) == QueuePaths(streamed + more)
    decreases Pending(x, deferred, streamed), 1
  {
    if deferred != [] {
      more := AfterDeferred(x, deferred, streamed);
    } else if streamed != [] {
      more := AfterItem(x, streamed);
    } else {
      more := [];
      assert streamed + more == [];
    }
  }

  lemma {:induction false} AfterDeferred(x: Exec, deferred: seq<DeferJob>, streamed: seq<StreamJob>)
    returns (more: seq<StreamJob>)
    requires Finite(x) && x.incremental && JobsOk(OneShot(x), deferred, streamed) && Servable(streamed)
             && deferred != []
    ensures multiset(more) == Due(x, deferred, streamed)
            && ItemPaths(Payloads(x, deferred, streamed)) == QueuePaths(streamed + more)
    decreases Pending(x, deferred, streamed), 0
  {
    var out := ResolveDeferred(x, deferred[0]);
    var d, s := deferred[1..] + out.deferred, streamed + out.streamed;
    DeferredStep(x, deferred, streamed);
    ServeDeferred(x, deferred, streamed);
    DeferredBegins(x, deferred, streamed);
    var after := QueuedInOrder(x, d, s);
    more := out.streamed + after;
    Onward(streamed, out.streamed, after);
    ItemPathsOne(Payload(deferred[0].path, out.ending.json, out.errors, d != [] || s != [], false), Payloads(x, d, s));
  }

  lemma {:induction false} AfterItem(x: Exec, streamed: seq<StreamJob>) returns (more: seq<StreamJob>)
    requires Finite(x) && x.incremental && JobsOk(OneShot(x), [], streamed) && Servable(streamed) && streamed != []
    ensures multiset(more) == Due(x, [], streamed)
            && ItemPaths(Payloads(x, [], streamed)) == QueuePaths(streamed + more)
    decreases Pending(x, [], streamed), 0
  {
    var job := streamed[0];
    var out := ResolveItem(x, job);
    var d, s := out.deferred, Rest(job) + streamed[1..] + out.streamed;
    ItemStep(x, streamed);
    ServeItem(x, streamed);
    ItemBegins(x, streamed);
    var after := QueuedInOrder(x, d, s);
    more := out.streamed + after;
    ItemPathsOne(Payload(ItemPath(job), out.ending.json, out.errors, d != [] || s != [], true), Payloads(x, d, s));
    HeadThenQueue(streamed, out.streamed, after);
  }

  lemma HeadThenQueue(streamed: seq<StreamJob>, begun: seq<StreamJob>, after: seq<StreamJob>)
    requires streamed != [] && streamed[0].items != []
    ensures [ItemPath(streamed[0])] + QueuePaths(Rest(streamed[0]) + streamed[1..] + begun + after)
            == QueuePaths(streamed + (begun + after))
  {
    var later := streamed[1..] + (begun + after);
    HeadServed(streamed[0], later);
    Regroup(Rest(streamed[0]), streamed[1..], begun, after);
    Split(streamed, begun + after);
  }

  lemma Regroup<T>(a: seq<T>, b: seq<T>, c: seq<T>, d: seq<T>)
    ensures a + b + c + d == a + (b + (c + d))
  {
  }

  lemma Split<T>(s: seq<T>, t: seq<T>)
    requires s != []
    ensures s + t == [s[0]] + (s[1..] + t)
  {
  }

  lemma Onward<T>(a: seq<T>, b: seq<T>, c: seq<T>)
    ensures a + b + c == a + (b + c)
  {
  }

  /** Serving a deferred fragment turns what it leads to into stream jobs and what these and new deferred
      fragments lead to. */
  lemma DeferredBegins(x: Exec, deferred: seq<DeferJob>, streamed: seq<StreamJob>)
    requires Finite(x) && Servable(streamed) && deferred != []
    ensures var out := ResolveDeferred(x, deferred[0]);
            && Servable(streamed + out.streamed)
            && Due(x, deferred, streamed)
               == multiset(out.streamed) + Due(x, deferred[1..] + out.deferred, streamed + out.streamed)
  {
    var job := deferred[0];
    var out := ResolveDeferred(x, job);
    SelectionLeaves(x, job.objectType, job.source, job.selections, job.path, false);
    DeferredDueBoth(x, deferred[1..], out.deferred);
    StreamedDueBoth(x, streamed, out.streamed);
  }

  /** Serving the head of a stream job does the same for its first item. */
  lemma ItemBegins(x: Exec, streamed: seq<StreamJob>)
    requires Finite(x) && Servable(streamed) && streamed != []
    ensures var out := ResolveItem(x, streamed[0]);
            var rest := Rest(streamed[0]) + streamed[1..] + out.streamed;
            && Servable(rest) && Due(x, [], streamed) == multiset(out.streamed) + Due(x, out.deferred, rest)
  {
    var job := streamed[0];
    var out := ResolveItem(x, job);
    ValueLeaves(x, job.ofType, job.nodes, ItemPath(job), job.items[0]);
    RestDue(x, job);
    StreamedDueBoth(x, Rest(job), streamed[1..]);
    StreamedDueBoth(x, Rest(job) + streamed[1..], out.streamed);
  }

  lemma RestDue(x: Exec, job: StreamJob)
    requires Finite(x) && job.nodes != [] && job.items != []
    ensures Servable(Rest(job))
    ensures JobDue(x, job) == ValueStreams(x, job.ofType, job.nodes, ItemPath(job), job.items[0])
            + StreamedDue(x, Rest(job))
  {
    var later := job.(items := job.items[1..], next := job.next + 1);
    assert JobDue(x, job) == ValueStreams(x, job.ofType, job.nodes, ItemPath(job), job.items[0]) + JobDue(x, later);
    if |job.items| == 1 {
      assert later.items == [] && JobDue(x, later) == multiset{};
    } else {
      assert Rest(job) == [later] && [later][1..] == [];
      assert StreamedDue(x, [later]) == JobDue(x, later) + StreamedDue(x, []);
    }
  }

  /** The streamed items of a whole run are those of some lists, one list after the other, each list's indices
      consecutive from its initial count to its end. The lists are exactly those that the operation's groups ask
      to stream, one per group, and they stand in the one-shot response. */
  lemma StreamedConsecutively(x: Exec, rootType: string, rootValue: PyValue, ss: seq<Selection>, mutation: bool)
    returns (lists: seq<StreamJob>)
    requires Finite(x) && x.incremental && ErrorFree(OneShot(x), rootType, rootValue, ss, mutation)
    ensures ItemPaths(RunIncremental(x, rootType, rootValue, ss, mutation)) == QueuePaths(lists)
    ensures multiset(lists) == SiteStreams(x, rootType, rootValue, [], ss)
    ensures forall job <- lists :: StreamsListOf(x, rootType, rootValue, ss, mutation, job)
  {
    var out := ExecuteOperation(x, rootType, rootValue, ss, mutation);
    RootOk(OneShot(x), rootType, rootValue, ss, mutation);
    OperationServable(x, rootType, rootValue, ss, mutation);
    assert out == SelectionOut(x, rootType, rootValue, ss, [], mutation);
    SelectionDelivers(x, rootType, rootValue, ss, [], mutation);
    RootIsObject(x, rootType, rootValue, ss, mutation);
    SelectionLeaves(x, rootType, rootValue, ss, [], mutation);
    var more := QueuedInOrder(x, out.deferred, out.streamed);
    lists := out.streamed + more;
    ItemPathsOne(RunIncremental(x, rootType, rootValue, ss, mutation)[0], Payloads(x, out.deferred, out.streamed));
    forall job <- lists ensures StreamsListOf(x, rootType, rootValue, ss, mutation, job) {
      assert job in multiset(lists);
      StreamedListStands(x, rootType, rootValue, ss, mutation, job);
    }
  }

  lemma RootIsObject(x: Exec, rootType: string, rootValue: PyValue, ss: seq<Selection>, mutation: bool)
    requires Finite(x) && x.incremental && ErrorFree(OneShot(x), rootType, rootValue, ss, mutation)
    ensures SelectionOut(x, rootType, rootValue, ss, [], mutation).ending.json.JObject?
  {
    var w := Walk(x.env, rootType, ss, {}, true);
    RootOk(OneShot(x), rootType, rootValue, ss, mutation);
    SelectionClean(x, rootType, rootValue, ss, [], mutation);
    AllKeys(w.nodes);
    CleanFields(x, rootType, rootValue, w.nodes, Keys(w.nodes), [], mutation);
  }

  // ----- when no item is delivered twice -------------------------------------------------------------

  predicate AllDistinct<T(==)>(s: seq<T>) { forall i, j | 0 <= i < j < |s| :: s[i] != s[j] }

  predicate Disjoint<T(==)>(a: seq<T>, b: seq<T>) { forall t <- a :: t !in b }

  lemma DistinctBoth<T>(a: seq<T>, b: seq<T>)
    ensures AllDistinct(a + b) <==> AllDistinct(a) && AllDistinct(b) && Disjoint(a, b)
  {
    var ab := a + b;
    if AllDistinct(ab) {
      forall i, j | 0 <= i < j < |a| ensures a[i] != a[j] { assert ab[i] == a[i] && ab[j] == a[j]; }
      forall i, j | 0 <= i < j < |b| ensures b[i] != b[j] { assert ab[|a| + i] == b[i] && ab[|a| + j] == b[j]; }
      forall i, j | 0 <= i < |a| && 0 <= j < |b| ensures a[i] != b[j] { assert ab[i] == a[i] && ab[|a| + j] == b[j]; }
    }
    if AllDistinct(a) && AllDistinct(b) && Disjoint(a, b) {
      forall i, j | 0 <= i < j < |ab| ensures ab[i] != ab[j] {
        if i < |a| && j >= |a| { assert a[i] in a && b[j - |a|] in b; }
      }
    }
  }

  lemma {:induction false} QueuePathsFrom(jobs: seq<StreamJob>, path: Path)
    ensures path in QueuePaths(jobs) <==> exists job <- jobs :: path in JobPaths(job)
  {
    if jobs != [] {
      QueuePathsFrom(jobs[1..], path);
      assert forall job <- jobs :: job == jobs[0] || job in jobs[1..];
    }
  }

  /** Jobs stream to the ends of lists: jobs at one path have the same end. */
  ghost predicate SameEnds(jobs: seq<StreamJob>) {
    && (forall j <- jobs :: j.items != [])
    && forall j <- jobs, k <- jobs | j.path == k.path :: j.next + |j.items| == k.next + |k.items|
  }

  function PathsOf(jobs: seq<StreamJob>): seq<Path> { seq(|jobs|, i requires 0 <= i < |jobs| => jobs[i].path) }

  lemma JobPathsApart(j: StreamJob, k: StreamJob)
    requires j.items != [] && k.items != [] && (j.path == k.path ==> j.next + |j.items| == k.next + |k.items|)
    ensures Disjoint(JobPaths(j), JobPaths(k)) <==> j.path != k.path
  {
    if j.path == k.path {
      var a, b := |j.items| - 1, |k.items| - 1;
      assert JobPaths(j)[a] == j.path + [Index(j.next + a)] == k.path + [Index(k.next + b)] == JobPaths(k)[b];
      assert JobPaths(j)[a] in JobPaths(j);
    } else {
      forall a, b | 0 <= a < |j.items| && 0 <= b < |k.items| ensures JobPaths(j)[a] != JobPaths(k)[b] {
        var s, t := JobPaths(j)[a], JobPaths(k)[b];
        assert s[..|s| - 1] == j.path && t[..|t| - 1] == k.path;
      }
    }
  }

  lemma OneJobDistinct(j: StreamJob)
    ensures AllDistinct(JobPaths(j))
  {
    forall a, b | 0 <= a < b < |JobPaths(j)| ensures JobPaths(j)[a] != JobPaths(j)[b] {
      assert JobPaths(j)[a][|j.path|] == Index(j.next + a) && JobPaths(j)[b][|j.path|] == Index(j.next + b);
    }
  }

  lemma {:induction false} QueueDistinct(jobs: seq<StreamJob>)
    requires SameEnds(jobs)
    ensures AllDistinct(QueuePaths(jobs)) <==> AllDistinct(PathsOf(jobs))
  {
    if jobs != [] {
      var head, rest := jobs[0], jobs[1..];
      QueueDistinct(rest);
      OneJobDistinct(head);
      DistinctBoth(JobPaths(head), QueuePaths(rest));
      assert PathsOf(jobs) == [head.path] + PathsOf(rest);
      DistinctBoth([head.path], PathsOf(rest));
      HeadApart(head, rest);
    }
  }

  lemma HeadApart(head: StreamJob, rest: seq<StreamJob>)
    requires SameEnds([head] + rest)
    ensures Disjoint(JobPaths(head), QueuePaths(rest)) <==> Disjoint([head.path], PathsOf(rest))
  {
    forall k <- rest ensures Disjoint(JobPaths(head), JobPaths(k)) <==> head.path != k.path {
      assert head in [head] + rest && k in [head] + rest;
      JobPathsApart(head, k);
    }
    forall t <- JobPaths(head) ensures t in QueuePaths(rest) <==> exists k <- rest :: t in JobPaths(k) {
      QueuePathsFrom(rest, t);
    }
    HasPath(rest, head.path);
  }

  /** No list is streamed from two groups. */
  predicate OncePerPath(streams: multiset<StreamJob>) {
    forall j <- streams, k <- streams | j.path == k.path :: j == k && streams[j] == 1
  }

  lemma {:induction false} OncePerPathExactly(lists: seq<StreamJob>)
    ensures OncePerPath(multiset(lists)) <==> AllDistinct(PathsOf(lists))
  {
    if lists != [] {
      var head, rest := lists[0], lists[1..];
      OncePerPathExactly(rest);
      assert lists == [head] + rest;
      assert multiset(lists) == multiset{head} + multiset(rest);
      assert PathsOf(lists) == [head.path] + PathsOf(rest);
      DistinctBoth([head.path], PathsOf(rest));
      OneMoreOnce(head, multiset(rest));
      HasPath(rest, head.path);
      assert forall k :: k in multiset(rest) <==> k in rest;
    }
  }

  lemma HasPath(jobs: seq<StreamJob>, path: Path)
    ensures path in PathsOf(jobs) <==> exists k <- jobs :: k.path == path
  {
    if k :| k in jobs && k.path == path {
      var i :| 0 <= i < |jobs| && jobs[i] == k;
      assert PathsOf(jobs)[i] == path;
    }
    if path in PathsOf(jobs) {
      var i :| 0 <= i < |jobs| && PathsOf(jobs)[i] == path;
      assert jobs[i] in jobs;
    }
  }

  lemma OneMoreOnce(head: StreamJob, rest: multiset<StreamJob>)
    ensures OncePerPath(multiset{head} + rest) <==> OncePerPath(rest) && forall k <- rest :: k.path != head.path
  {
    var all := multiset{head} + rest;
    if OncePerPath(all) {
      forall k <- rest ensures k.path != head.path { assert k in all && head in all; }
      forall j <- rest, k <- rest | j.path == k.path ensures j == k && rest[j] == 1 { assert j in all && k in all; }
    }
    if OncePerPath(rest) && forall k <- rest :: k.path != head.path {
      forall j <- all, k <- all | j.path == k.path ensures j == k && all[j] == 1 {}
    }
  }

  /** No streamed item arrives twice if and only if no list is streamed from two groups: a list is when its
      field is selected with `@stream` both inside and outside a deferred fragment, or inside two. */
  lemma ItemsOnceExactly(x: Exec, rootType: string, rootValue: PyValue, ss: seq<Selection>, mutation: bool)
    requires Finite(x) && x.incremental && ErrorFree(OneShot(x), rootType, rootValue, ss, mutation)
    ensures AllDistinct(ItemPaths(RunIncremental(x, rootType, rootValue, ss, mutation)))
            <==> OncePerPath(SiteStreams(x, rootType, rootValue, [], ss))
  {
    var lists := StreamedConsecutively(x, rootType, rootValue, ss, mutation);
    forall j <- lists, k <- lists | j.path == k.path ensures j.next + |j.items| == k.next + |k.items| {
      assert StreamsListOf(x, rootType, rootValue, ss, mutation, j)
          && StreamsListOf(x, rootType, rootValue, ss, mutation, k);
    }
    QueueDistinct(lists);
    OncePerPathExactly(lists);
  }

  // ----- one list streamed twice ----------------------------------------------------------------------

  /** The selection `xs @stream`. */
  function StreamedField(): Selection { Field("xs", None, [], [Directive("stream", [])], NoSelectionSet) }

  /** `xs @stream ... @defer { xs @stream }`, which breaks no rule about `@stream`. */
  function SelectedTwice(): seq<Selection> {
    [StreamedField(), InlineFragment(None, [Directive("defer", [])], [StreamedField()])]
  }

  /** A schema with a list of integers `xs`, and a resolver that gives a list of one item. */
  function OneItem(): Exec {
    Exec(Env(map["Query" := ObjectType(map["xs" := ListType(NamedType("Int"))], {}), "Int" := ScalarType], map[],
        map[]), map[],
         World((o, f, a, s, p) => Returned(PyList([PyAtom(7)])), (n, v) => Emitted(Some(7)), (n, v) => Inferred(None)),
             true)
  }

  function OneItemJob(): StreamJob { StreamJob(NamedType("Int"), [StreamedField()], [Key("xs")], [PyAtom(7)], 0) }

  lemma FieldIncluded()
    ensures IsField(OneItem().env, StreamedField()) && !Deferred(StreamedField().directives, map[])
    ensures StreamCount(OneItem(), StreamedField().directives) == Some(0)
  {
    var d := Directive("stream", []);
    assert [d][1..] == [] && d.name[0] == 's' && d.name[1] == 't';
    assert DirectiveIf([d], "skip", map[]) == DirectiveIf([], "skip", map[]);
    assert DirectiveIf([d], "include", map[]) == DirectiveIf([], "include", map[]);
  }

  lemma FragmentDeferred()
    ensures var f := SelectedTwice()[1];
            Expands(OneItem().env, "Query", f) && Deferred(f.directives, map[]) && !IsField(OneItem().env, f)
  {
    var d := Directive("defer", []);
    assert [d][1..] == [];
    assert DirectiveIf([d], "skip", map[]) == DirectiveIf([], "skip", map[]);
    assert DirectiveIf([d], "include", map[]) == DirectiveIf([], "include", map[]);
  }

  lemma WalkOfOne(incremental: bool)
    ensures Walk(OneItem().env, "Query", [StreamedField()], {}, incremental) == Walked([StreamedField()], {}, [])
  {
    FieldIncluded();
    var ss := [StreamedField()];
    assert ss[1..] == [];
  }

  lemma WalkOfTwo()
    ensures Walk(OneItem().env, "Query", SelectedTwice(), {}, true)
            == Walked([StreamedField()], {}, [[StreamedField()]])
    ensures Walk(OneItem().env, "Query", SelectedTwice(), {}, false).nodes == [StreamedField(), StreamedField()]
  {
    var env, ss := OneItem().env, SelectedTwice();
    var rest := ss[1..];
    FieldIncluded();
    FragmentDeferred();
    assert rest == [ss[1]] && rest[1..] == [];
    WalkOfOne(false);
    assert Walk(env, "Query", rest, {}, true) == Walked([], {}, [[StreamedField()]]);
    assert Walk(env, "Query", rest, {}, false).nodes == [StreamedField()];
  }

  /** Each of the two groups streams the list. */
  lemma GroupStreams()
    ensures Finite(OneItem()) && KeysOf(Keys([StreamedField()]), [StreamedField()])
    ensures GroupsStream(OneItem(), "Query", PyNull, [StreamedField()], Keys([StreamedField()]), [])
            == multiset{OneItemJob()}
  {
    var x, f := OneItem(), StreamedField();
    var nodes := [f];
    AllKeys(nodes);
    OneGroup(f);
    FieldIncluded();
    var here := [Key("xs")];
    assert [] + [Key("xs")] == here;
    var items := [PyAtom(7)];
    assert items[0..] == items && items[1..] == [];
    assert Initial(x, f, items) == 0;
    assert ItemsStream(x, NamedType("Int"), nodes, here, items, 0) == multiset{};
    assert Remainder(NamedType("Int"), nodes, here, items, 0) == [OneItemJob()];
    assert ListStreams(x, NamedType("Int"), nodes, here, items) == multiset{OneItemJob()};
    assert FieldStreams(x, "Query", PyNull, nodes, here) == multiset{OneItemJob()};
    assert ["xs"][1..] == [];
  }

  lemma OneGroup(f: Selection)
    requires f.Field?
    ensures Keys([f]) == [ResponseKey(f)] && Under([f], ResponseKey(f)) == [f]
  {
    assert [f][1..] == [] && [f][..0] == [];
  }

  lemma StreamedTwice()
    ensures Finite(OneItem())
    ensures SiteStreams(OneItem(), "Query", PyNull, [], SelectedTwice()) == multiset{OneItemJob(), OneItemJob()}
  {
    var x, f := OneItem(), StreamedField();
    WalkOfOne(true);
    WalkOfTwo();
    GroupStreams();
    assert SitesStream(x, "Query", PyNull, [], []) == multiset{};
    assert SiteStreams(x, "Query", PyNull, [], [f]) == multiset{OneItemJob()};
    assert [[f]][1..] == [];
    assert SitesStream(x, "Query", PyNull, [], [[f]]) == multiset{OneItemJob()};
  }

  lemma TwiceIsConsistent()
    ensures Finite(OneItem()) && Consistent(OneShot(OneItem()), "Query", [StreamedField(), StreamedField()])
  {
    var y, f := OneShot(OneItem()), StreamedField();
    TwoInOneGroup(f);
    assert !IsComposite(y.env, "Int");
    forall key | Under([f, f], key) != [] ensures !Descends(y.env, "Query", Under([f, f], key)[0]) {}
  }

  lemma TwiceRunsCleanly()
    ensures Finite(OneItem()) && KeysOf(["xs"], [StreamedField(), StreamedField()])
    ensures ExecuteFields(OneShot(OneItem()), "Query", PyNull, [StreamedField(), StreamedField()], ["xs"], [],
              false).errors == []
  {
    var y, f := OneShot(OneItem()), StreamedField();
    var nodes, items := [f, f], [PyAtom(7)];
    TwoInOneGroup(f);
    AllKeys(nodes);
    assert IsLeaf(y.env, "Int");
    assert items[1..] == [] && items[..|items|] == items;
    assert CompleteItems(y, NamedType("Int"), nodes, [Key("xs")], items, 0).errors == [];
    assert ExecuteField(y, "Query", PyNull, nodes, [Key("xs")]).errors == [];
    assert [] + [Key("xs")] == [Key("xs")] && ["xs"][1..] == [];
  }

  /** The one-shot run of the selections is free of errors. */
  lemma TwiceIsErrorFree()
    ensures Finite(OneItem()) && ErrorFree(OneShot(OneItem()), "Query", PyNull, SelectedTwice(), false)
  {
    WalkOfTwo();
    TwoInOneGroup(StreamedField());
    TwiceIsConsistent();
    TwiceRunsCleanly();
    OneItemSound();
    var out := ExecuteOperation(OneShot(OneItem()), "Query", PyNull, SelectedTwice(), false);
    assert out.errors == ExecuteFields(OneShot(OneItem()), "Query", PyNull, [StreamedField(), StreamedField()], ["xs"],
        [], false).errors;
  }

  lemma OneItemSound()
    ensures Sound(OneShot(OneItem()))
  {
    assert IsLeaf(OneItem().env, "Int");
  }

  lemma TwoInOneGroup(f: Selection)
    requires f.Field?
    ensures Keys([f, f]) == [ResponseKey(f)] && Under([f, f], ResponseKey(f)) == [f, f]
    ensures forall key | key != ResponseKey(f) :: Under([f, f], key) == []
  {
    OneGroup(f);
    UnderExact([f, f], ResponseKey(f));
    assert [f, f][1..] == [f] && [f, f][..1] == [f];
    forall key | key != ResponseKey(f) ensures Under([f, f], key) == [] { UnderExact([f, f], key); }
  }

  /** Selecting one list with `@stream` inside and outside a deferred fragment delivers its items twice. */
  lemma DeliversTwice()
    ensures Finite(OneItem()) && !AllDistinct(ItemPaths(RunIncremental(OneItem(), "Query", PyNull, SelectedTwice(),
              false)))
  {
    TwiceIsErrorFree();
    StreamedTwice();
    ItemsOnceExactly(OneItem(), "Query", PyNull, SelectedTwice(), false);
    var streams := multiset{OneItemJob(), OneItemJob()};
    assert OneItemJob() in streams && streams[OneItemJob()] == 2;
  }
}
