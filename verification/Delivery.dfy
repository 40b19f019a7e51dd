/** The incremental payload stream of `run_incremental`: it ends, announces its end exactly once,
    builds only on what it has delivered, and adds up to the one-shot response. */
module Delivery {
  import opened Ast
  import opened CollectFields
  import opened Executor
  import opened NullPropagation
  import opened Reports
  import opened Gist
  import opened Incremental

  // ----- resolving one job ----------------------------------------------------------------

  /** `_resolve_deferred`. */
  function ResolveDeferred(x: Exec, job: DeferJob): Out
    requires Finite(x)
  {
    var w := Walk(x.env, job.objectType, job.selections, {}, x.incremental);
    AllKeys(w.nodes);
    WithDeferred(job.objectType, job.source, job.path, w.deferred,
                 ExecuteFields(x, job.objectType, job.source, w.nodes, Keys(w.nodes), job.path, false))
  }

  /** `_resolve_stream_item`: the item at the head of the job; a bubble leaves null. */
  function ResolveItem(x: Exec, job: StreamJob): Out
    requires Finite(x) && job.nodes != [] && job.items != []
  {
    var out := CompleteValue(x, job.ofType, job.nodes, ItemPath(job), job.items[0]);
    out.(ending := Absorbed(out.ending))
  }

  function ItemPath(job: StreamJob): Path { job.path + [Index(job.next)] }

  /** A null completes to null, which a non-null type turns into a bubble with its own error. */
  lemma {:induction false} NullCompletes(x: Exec, t: TypeRef, nodes: seq<Selection>, path: Path)
    requires Finite(x) && nodes != []
    ensures CompleteValue(x, t, nodes, path, PyNull)
            == if t.NonNull? then Plain(Bubble, [Error(path, CannotReturnNull)]) else Plain(Data(JNull), [])
  {
    if t.NonNull? { NullCompletes(x, t.ofType, nodes, path); }
  }

  /** A streamed item is null at a non-null item type exactly when completing it bubbles, as an item that is
      itself null does. */
  lemma StreamedNullExactly(x: Exec, job: StreamJob)
    requires Finite(x) && job.nodes != [] && job.items != [] && job.ofType.NonNull?
    ensures ResolveItem(x, job).ending == Data(JNull)
            <==> CompleteValue(x, job.ofType, job.nodes, ItemPath(job), job.items[0]).ending.Bubble?
    ensures job.items[0].PyNull? ==>
              ResolveItem(x, job) == Plain(Data(JNull), [Error(ItemPath(job), CannotReturnNull)])
  {
    if job.items[0].PyNull? { NullCompletes(x, job.ofType, job.nodes, ItemPath(job)); }
  }

  /** The job once its head item has been delivered, unless that was the last. */
  function Rest(job: StreamJob): seq<StreamJob>
    requires job.items != []
  {
    if |job.items| == 1 then [] else [job.(items := job.items[1..], next := job.next + 1)]
  }

  predicate Servable(streamed: seq<StreamJob>) { forall j <- streamed :: j.nodes != [] && j.items != [] }

  // ----- jobs get smaller --------------------------------------------------------------------

  datatype Rank = Rank(size: nat, kind: nat, depth: nat, length: nat)

  predicate Less(a: Rank, b: Rank) {
    || a.size < b.size
    || (a.size == b.size && a.kind < b.kind)
    || (a.size == b.size && a.kind == b.kind && a.depth < b.depth)
    || (a.size == b.size && a.kind == b.kind && a.depth == b.depth && a.length < b.length)
  }

  function DeferRank(x: Exec, job: DeferJob): Rank { Rank(Size(job.selections, x.weight), 1, 0, 0) }

  function StreamRank(x: Exec, job: StreamJob): Rank {
    Rank(Size(job.nodes, x.weight), 0, Depth(job.ofType), |job.items|)
  }

  predicate Smaller(x: Exec, deferred: seq<DeferJob>, streamed: seq<StreamJob>, r: Rank) {
    && (forall j <- deferred :: Less(DeferRank(x, j), r))
    && (forall j <- streamed :: Less(StreamRank(x, j), r))
    && Servable(streamed)
  }

  lemma {:induction false} SetsSmaller(sets: seq<seq<Selection>>, d: seq<Selection>, weight: map<string, nat>)
    requires d in sets
    ensures Size(d, weight) < SizeAll(sets, weight)
  {
    if sets[0] != d { SetsSmaller(sets[1..], d, weight); }
  }

  lemma {:induction false} FieldSmaller(x: Exec, objectType: string, source: PyValue, nodes: seq<Selection>, path: Path)
    requires Finite(x) && nodes != []
    ensures var out := ExecuteField(x, objectType, source, nodes, path);
            Smaller(x, out.deferred, out.streamed, Rank(Size(nodes, x.weight), 1, 0, 0))
    decreases Size(nodes, x.weight), 2
  {
    var node := nodes[0];
    if node.Field? && node.name != "__typename" && node.name in FieldTypes(x.env, objectType) {
      match x.world.resolve(objectType, node.name, Arguments.ArgumentsMap(node.arguments), source, path)
      case Raised(_) =>
      case Returned(value) => ValueSmaller(x, FieldTypes(x.env, objectType)[node.name], nodes, path, value);
    }
  }

  lemma {:induction false} FieldsSmaller(x: Exec, objectType: string, source: PyValue, nodes: seq<Selection>,
                       keys: seq<string>, path: Path, serial: bool)
    requires Finite(x) && KeysOf(keys, nodes)
    ensures var out := ExecuteFields(x, objectType, source, nodes, keys, path, serial);
            Smaller(x, out.deferred, out.streamed, Rank(Size(nodes, x.weight), 1, 0, 0))
    decreases Size(nodes, x.weight), 3, |keys|
  {
    if keys != [] {
      SizeUnder(nodes, keys[0], x.weight);
      FieldSmaller(x, objectType, source, Under(nodes, keys[0]), path + [Key(keys[0])]);
      FieldsSmaller(x, objectType, source, nodes, keys[1..], path, serial);
    }
  }

  lemma {:induction false} ValueSmaller(x: Exec, t: TypeRef, nodes: seq<Selection>, path: Path, value: PyValue)
    requires Finite(x) && nodes != []
    ensures var out := CompleteValue(x, t, nodes, path, value);
            Smaller(x, out.deferred, out.streamed, Rank(Size(nodes, x.weight), 0, Depth(t), 0))
    decreases Size(nodes, x.weight), 1, t, 0
  {
    match t
    case NonNull(u) => ValueSmaller(x, u, nodes, path, value);
    case ListType(u) => if value.PyList? { ListSmaller(x, u, nodes, path, value.items); }
    case NamedType(name) =>
      if !value.PyNull? && !IsLeaf(x.env, name) && IsComposite(x.env, name) && Infers(ConcreteType(x, name, value)) {
        ObjectSmaller(x, name, ConcreteType(x, name, value).name.value, nodes, path, value);
      }
  }

  lemma ListSmaller(x: Exec, u: TypeRef, nodes: seq<Selection>, path: Path, items: seq<PyValue>)
    requires Finite(x) && nodes != []
    ensures var out := CompleteValue(x, ListType(u), nodes, path, PyList(items));
            Smaller(x, out.deferred, out.streamed, Rank(Size(nodes, x.weight), 0, Depth(ListType(u)), 0))
    decreases Size(nodes, x.weight), 1, u, 2 + |items|
  {
    var now := ListParts(x, u, nodes, path, items);
    ItemsSmaller(x, u, nodes, path, items[..now], 0);
  }

  lemma {:induction false} ObjectSmaller(x: Exec, name: string, objectType: string, nodes: seq<Selection>, path: Path,
      value: PyValue)
    requires Finite(x) && nodes != [] && !value.PyNull? && !IsLeaf(x.env, name) && IsComposite(x.env, name)
    requires ConcreteType(x, name, value) == Inferred(Some(objectType))
    ensures var out := CompleteValue(x, NamedType(name), nodes, path, value);
            Smaller(x, out.deferred, out.streamed, Rank(Size(nodes, x.weight), 0, 0, 0))
    decreases Size(nodes, x.weight), 0
  {
    var w := SubWalk(x, objectType, nodes);
    ObjectParts(x, name, objectType, nodes, path, value);
    SubWalkSize(x, objectType, nodes);
    FieldsSmaller(x, objectType, value, w.nodes, Keys(w.nodes), path, false);
    JobsOfSetsSmaller(x, objectType, value, path, w.deferred);
  }

  lemma JobsOfSetsSmaller(x: Exec, objectType: string, value: PyValue, path: Path, sets: seq<seq<Selection>>)
    ensures forall j <- DeferJobs(objectType, value, path, sets) ::
            Size(j.selections, x.weight) < SizeAll(sets, x.weight)
  {
    forall j <- DeferJobs(objectType, value, path, sets)
      ensures Size(j.selections, x.weight) < SizeAll(sets, x.weight) {
      SetsSmaller(sets, j.selections, x.weight);
    }
  }

  lemma {:induction false} ItemsSmaller(x: Exec, t: TypeRef, nodes: seq<Selection>, path: Path, items: seq<PyValue>,
      from: nat)
    requires Finite(x) && nodes != []
    ensures var out := CompleteItems(x, t, nodes, path, items, from);
            Smaller(x, out.deferred, out.streamed, Rank(Size(nodes, x.weight), 0, Depth(t), 0))
    decreases Size(nodes, x.weight), 1, t, 1 + |items|
  {
    if items != [] {
      ValueSmaller(x, t, nodes, path + [Index(from)], items[0]);
      ItemsSmaller(x, t, nodes, path, items[1..], from + 1);
    }
  }

  lemma {:induction false} ResolvedDeferredSmaller(x: Exec, job: DeferJob)
    requires Finite(x)
    ensures var out := ResolveDeferred(x, job); Smaller(x, out.deferred, out.streamed, DeferRank(x, job))
  {
    var w := Walk(x.env, job.objectType, job.selections, {}, x.incremental);
    WalkSize(x, job.objectType, job.selections, {});
    AllKeys(w.nodes);
    FieldsSmaller(x, job.objectType, job.source, w.nodes, Keys(w.nodes), job.path, false);
    JobsOfSetsSmaller(x, job.objectType, job.source, job.path, w.deferred);
  }

  lemma {:induction false} ResolvedItemSmaller(x: Exec, job: StreamJob)
    requires Finite(x) && job.nodes != [] && job.items != []
    ensures var out := ResolveItem(x, job); Smaller(x, out.deferred, out.streamed, StreamRank(x, job))
  {
    ValueSmaller(x, job.ofType, job.nodes, ItemPath(job), job.items[0]);
  }

  // ----- how many payloads a job will lead to --------------------------------------------------

  function PayloadsOfDeferred(x: Exec, job: DeferJob): (n: nat)
    requires Finite(x)
    decreases Size(job.selections, x.weight), 1, 0, 0, 1, 0
  {
    var out := ResolveDeferred(x, job);
    ResolvedDeferredSmaller(x, job);
    1 + PayloadsOfAll(x, out.deferred, out.streamed, DeferRank(x, job))
  }

  function PayloadsOfStream(x: Exec, job: StreamJob): (n: nat)
    requires Finite(x) && job.nodes != [] && job.items != []
    decreases Size(job.nodes, x.weight), 0, Depth(job.ofType), |job.items|, 1, 0
  {
    var out := ResolveItem(x, job);
    ResolvedItemSmaller(x, job);
    1 + PayloadsOfAll(x, out.deferred, out.streamed, StreamRank(x, job))
      + if |job.items| == 1 then 0 else PayloadsOfStream(x, job.(items := job.items[1..], next := job.next + 1))
  }

  function PayloadsOfAll(x: Exec, deferred: seq<DeferJob>, streamed: seq<StreamJob>, r: Rank): nat
    requires Finite(x) && Smaller(x, deferred, streamed, r)
    decreases r.size, r.kind, r.depth, r.length, 0, |deferred| + |streamed|
  {
    if deferred != [] then
      assert Less(DeferRank(x, deferred[0]), r);
      PayloadsOfDeferred(x, deferred[0]) + PayloadsOfAll(x, deferred[1..], streamed, r)
    else if streamed != [] then
      assert Less(StreamRank(x, streamed[0]), r);
      PayloadsOfStream(x, streamed[0]) + PayloadsOfAll(x, deferred, streamed[1..], r)
    else 0
  }

  /** The payloads still to come for the queues. */
  function Pending(x: Exec, deferred: seq<DeferJob>, streamed: seq<StreamJob>): nat
    requires Finite(x) && Servable(streamed)
    decreases |deferred| + |streamed|
  {
    if deferred != [] then PayloadsOfDeferred(x, deferred[0]) + Pending(x, deferred[1..], streamed)
    else if streamed != [] then PayloadsOfStream(x, streamed[0]) + Pending(x, deferred, streamed[1..])
    else 0
  }

  lemma {:induction false} PendingIsAll(x: Exec, deferred: seq<DeferJob>, streamed: seq<StreamJob>, r: Rank)
    requires Finite(x) && Smaller(x, deferred, streamed, r)
    ensures PayloadsOfAll(x, deferred, streamed, r) == Pending(x, deferred, streamed)
    decreases |deferred| + |streamed|
  {
    if deferred != [] { PendingIsAll(x, deferred[1..], streamed, r); }
    else if streamed != [] { PendingIsAll(x, deferred, streamed[1..], r); }
  }

  lemma {:induction false} PendingAdds(x: Exec, d1: seq<DeferJob>, d2: seq<DeferJob>, s1: seq<StreamJob>,
      s2: seq<StreamJob>)
    requires Finite(x) && Servable(s1) && Servable(s2)
    ensures Servable(s1 + s2)
    ensures Pending(x, d1 + d2, s1 + s2) == Pending(x, d1, s1) + Pending(x, d2, s2)
    decreases |d1| + |d2| + |s1| + |s2|
  {
    if d1 != [] {
      assert (d1 + d2)[1..] == d1[1..] + d2;
      PendingAdds(x, d1[1..], d2, s1, s2);
    } else if d2 != [] {
      assert d1 + d2 == d2 && d1 + d2[1..] == d2[1..];
      PendingAdds(x, d1, d2[1..], s1, s2);
    } else if s1 != [] {
      assert (s1 + s2)[1..] == s1[1..] + s2;
      PendingAdds(x, d1, d2, s1[1..], s2);
    } else {
      assert s1 + s2 == s2 && d1 + d2 == d2;
    }
  }

  // ----- the payload stream ------------------------------------------------------------------------

  /** One yielded payload: what is placed where, its errors, and whether more follow. */
  datatype Payload = Payload(path: Path, json: Json, errors: seq<Error>, hasNext: bool, item: bool)

  lemma {:induction false} DeferredStep(x: Exec, deferred: seq<DeferJob>, streamed: seq<StreamJob>)
    requires Finite(x) && Servable(streamed) && deferred != []
    ensures var out := ResolveDeferred(x, deferred[0]);
            && !out.ending.Crash? && !out.ending.Bubble?
            && Servable(streamed + out.streamed)
            && Pending(x, deferred[1..] + out.deferred, streamed + out.streamed) + 1 == Pending(x, deferred, streamed)
  {
    var out := ResolveDeferred(x, deferred[0]);
    ResolvedDeferredSmaller(x, deferred[0]);
    PendingIsAll(x, out.deferred, out.streamed, DeferRank(x, deferred[0]));
    PendingAdds(x, deferred[1..], out.deferred, streamed, out.streamed);
  }

  lemma {:induction false} ItemStep(x: Exec, streamed: seq<StreamJob>)
    requires Finite(x) && Servable(streamed) && streamed != []
    ensures var out := ResolveItem(x, streamed[0]);
            && !out.ending.Bubble?
            && Servable(Rest(streamed[0]) + streamed[1..] + out.streamed)
            && Pending(x, out.deferred, Rest(streamed[0]) + streamed[1..] + out.streamed) + 1
               == Pending(x, [], streamed)
  {
    var job := streamed[0];
    var out := ResolveItem(x, job);
    ResolvedItemSmaller(x, job);
    PendingIsAll(x, out.deferred, out.streamed, StreamRank(x, job));
    PendingAdds(x, [], [], Rest(job), streamed[1..]);
    PendingAdds(x, [], out.deferred, Rest(job) + streamed[1..], out.streamed);
    assert [] + out.deferred == out.deferred;
    assert |job.items| > 1 ==> Rest(job)[1..] == [];
  }

  /** The payloads after the first one: deferred fragments before streamed items. An exception other
      than a GraphQL error from a streamed item ends the stream. */
  function Payloads(x: Exec, deferred: seq<DeferJob>, streamed: seq<StreamJob>): seq<Payload>
    requires Finite(x) && Servable(streamed)
    decreases Pending(x, deferred, streamed)
  {
    if deferred != [] then
      DeferredStep(x, deferred, streamed);
      var out := ResolveDeferred(x, deferred[0]);
      var d, s := deferred[1..] + out.deferred, streamed + out.streamed;
      [Payload(deferred[0].path, out.ending.json, out.errors, d != [] || s != [], false)] + Payloads(x, d, s)
    else if streamed != [] then
      ItemStep(x, streamed);
      var out := ResolveItem(x, streamed[0]);
      var d, s := out.deferred, Rest(streamed[0]) + streamed[1..] + out.streamed;
      if out.ending.Crash? then []
      else [Payload(ItemPath(streamed[0]), out.ending.json, out.errors, d != [] || s != [], true)] + Payloads(x, d, s)
    else []
  }

  lemma {:induction false} OperationServable(x: Exec, rootType: string, rootValue: PyValue, ss: seq<Selection>,
      mutation: bool)
    requires Finite(x)
    ensures Servable(ExecuteOperation(x, rootType, rootValue, ss, mutation).streamed)
  {
    var w := Walk(x.env, rootType, ss, {}, x.incremental);
    AllKeys(w.nodes);
    FieldsSmaller(x, rootType, rootValue, w.nodes, Keys(w.nodes), [], mutation);
  }

  /** All payloads of `run_incremental`, the initial response first. */
  function RunIncremental(x: Exec, rootType: string, rootValue: PyValue, ss: seq<Selection>,
      mutation: bool): (payloads: seq<Payload>)
    requires Finite(x)
    ensures payloads != []
  {
    var out := ExecuteOperation(x, rootType, rootValue, ss, mutation);
    OperationServable(x, rootType, rootValue, ss, mutation);
    [Payload([], out.ending.json, out.errors, out.deferred != [] || out.streamed != [], false)]
    + Payloads(x, out.deferred, out.streamed)
  }

  // ----- containers are delivered before their content ------------------------------------------------

  /** Every pending job adds to a container that `told` knows: an object, or a list that has just
      received the item before. */
  ghost predicate Anchored(told: Fact -> bool, deferred: seq<DeferJob>, streamed: seq<StreamJob>) {
    && (forall j <- deferred :: told(Fact(j.path, IsObject)))
    && (forall j <- streamed ::
          told(Fact(j.path, IsList))
          && (j.next > 0 ==> Reached(told, j.path + [Index(j.next - 1)])))
  }

  ghost predicate Reached(told: Fact -> bool, path: Path) { exists m :: told(Fact(path, m)) }

  lemma AnchoredMore(told: Fact -> bool, more: Fact -> bool, deferred: seq<DeferJob>, streamed: seq<StreamJob>)
    requires Anchored(told, deferred, streamed) && forall f :: told(f) ==> more(f)
    ensures Anchored(more, deferred, streamed)
  {
    forall j <- streamed | j.next > 0 ensures Reached(more, j.path + [Index(j.next - 1)]) {
      var m :| told(Fact(j.path + [Index(j.next - 1)], m));
      assert more(Fact(j.path + [Index(j.next - 1)], m));
    }
  }

  lemma AnchoredBoth(told: Fact -> bool, d1: seq<DeferJob>, s1: seq<StreamJob>, d2: seq<DeferJob>, s2: seq<StreamJob>)
    requires Anchored(told, d1, s1) && Anchored(told, d2, s2)
    ensures Anchored(told, d1 + d2, s1 + s2)
  {
  }

  lemma {:induction false} FieldAnchors(x: Exec, objectType: string, source: PyValue, nodes: seq<Selection>, path: Path)
    requires Finite(x) && FieldTogether(OneShot(x), objectType, nodes)
    requires forall n <- nodes :: OkField(OneShot(x), objectType, source, n, path)
    ensures var out := ExecuteField(x, objectType, source, nodes, path);
            Clean(out) && Anchored(f => Tells(out.ending.json, path, f), out.deferred, out.streamed)
    decreases Size(nodes, x.weight), 2
  {
    CleanField(x, objectType, source, nodes, path);
    var node := nodes[0];
    assert OkField(OneShot(x), objectType, source, node, path);
    if node.name != "__typename" && node.name in FieldTypes(x.env, objectType) {
      var t := FieldTypes(x.env, objectType)[node.name];
      var value := x.world.resolve(objectType, node.name, Arguments.ArgumentsMap(node.arguments), source, path).value;
      forall n <- nodes ensures OkValue(OneShot(x), t, n, path, value) {
        assert Alike(node, n);
        assert OkField(OneShot(x), objectType, source, n, path);
      }
      CleanValue(x, t, nodes, path, value);
      ValueAnchors(x, t, nodes, path, value);
    }
  }

  lemma {:induction false} FieldsAnchor(x: Exec, objectType: string, source: PyValue, nodes: seq<Selection>,
                       keys: seq<string>, path: Path, serial: bool)
    requires Finite(x) && KeysOf(keys, nodes)
    requires Consistent(OneShot(x), objectType, nodes) && OkNodes(OneShot(x), objectType, source, nodes, path)
    ensures var out := ExecuteFields(x, objectType, source, nodes, keys, path, serial);
            Clean(out) && Anchored(f => TellsEntries(out.ending.json.entries, path, f), out.deferred, out.streamed)
    decreases Size(nodes, x.weight), 3, |keys|
  {
    CleanFields(x, objectType, source, nodes, keys, path, serial);
    if keys != [] {
      var key := keys[0];
      SizeUnder(nodes, key, x.weight);
      UnderExact(nodes, key);
      GroupTogether(OneShot(x), objectType, nodes, key);
      FieldAnchors(x, objectType, source, Under(nodes, key), path + [Key(key)]);
      FieldsAnchor(x, objectType, source, nodes, keys[1..], path, serial);
      var h := ExecuteField(x, objectType, source, Under(nodes, key), path + [Key(key)]);
      var t := ExecuteFields(x, objectType, source, nodes, keys[1..], path, serial);
      BesideAnchored(key, h, t, path);
    }
  }

  lemma BesideAnchored(key: string, h: Out, t: Out, path: Path)
    requires Clean(h) && Clean(t) && t.ending.json.JObject?
    requires Anchored(f => Tells(h.ending.json, path + [Key(key)], f), h.deferred, h.streamed)
    requires Anchored(f => TellsEntries(t.ending.json.entries, path, f), t.deferred, t.streamed)
    ensures var out := Beside(key, h, t);
            Anchored(f => TellsEntries(out.ending.json.entries, path, f), out.deferred, out.streamed)
  {
    var told := f => TellsEntries(Beside(key, h, t).ending.json.entries, path, f);
    forall f
      ensures told(f)
              <==> Tells(h.ending.json, path + [Key(key)], f)
                   || TellsEntries(t.ending.json.entries, path, f)
    {
      EntriesTell(Entry(key, h.ending.json), t.ending.json.entries, path, f);
    }
    AnchoredMore(f => Tells(h.ending.json, path + [Key(key)], f), told, h.deferred, h.streamed);
    AnchoredMore(f => TellsEntries(t.ending.json.entries, path, f), told, t.deferred, t.streamed);
    AnchoredBoth(told, h.deferred, h.streamed, t.deferred, t.streamed);
  }

  lemma AheadAnchored(h: Out, t: Out, path: Path, from: nat)
    requires Clean(h) && Clean(t) && t.ending.json.JList?
    requires Anchored(f => Tells(h.ending.json, path + [Index(from)], f), h.deferred, h.streamed)
    requires Anchored(f => TellsItems(t.ending.json.items, path, from + 1, f), t.deferred, t.streamed)
    ensures var out := Ahead(h, t);
            Anchored(f => TellsItems(out.ending.json.items, path, from, f), out.deferred, out.streamed)
  {
    var told := f => TellsItems(Ahead(h, t).ending.json.items, path, from, f);
    forall f
      ensures told(f)
              <==> Tells(h.ending.json, path + [Index(from)], f)
                   || TellsItems(t.ending.json.items, path, from + 1, f)
    {
      ItemsTell(h.ending.json, t.ending.json.items, path, from, f);
    }
    AnchoredMore(f => Tells(h.ending.json, path + [Index(from)], f), told, h.deferred, h.streamed);
    AnchoredMore(f => TellsItems(t.ending.json.items, path, from + 1, f), told, t.deferred, t.streamed);
    AnchoredBoth(told, h.deferred, h.streamed, t.deferred, t.streamed);
  }

  lemma {:induction false} ValueAnchors(x: Exec, t: TypeRef, nodes: seq<Selection>, path: Path, value: PyValue)
    requires Finite(x) && Together(OneShot(x), t, nodes)
    requires forall n <- nodes :: OkValue(OneShot(x), t, n, path, value)
    ensures var out := CompleteValue(x, t, nodes, path, value);
            Clean(out) && Anchored(f => Tells(out.ending.json, path, f), out.deferred, out.streamed)
    decreases Size(nodes, x.weight), 1, t, 1
  {
    CleanValue(x, t, nodes, path, value);
    assert OkValue(OneShot(x), t, nodes[0], path, value);
    match t
    case NonNull(u) =>
      forall n <- nodes ensures OkValue(OneShot(x), u, n, path, value) {
        assert OkValue(OneShot(x), t, n, path, value);
      }
      CleanValue(x, u, nodes, path, value);
      ValueAnchors(x, u, nodes, path, value);
    case ListType(u) => if !value.PyNull? { ListAnchors(x, u, nodes, path, value.items); }
    case NamedType(name) => if !value.PyNull? && !IsLeaf(x.env, name) { ObjectAnchors(x, name, nodes, path, value); }
  }

  lemma {:induction false} ListAnchors(x: Exec, u: TypeRef, nodes: seq<Selection>, path: Path, items: seq<PyValue>)
    requires Finite(x) && Together(OneShot(x), ListType(u), nodes)
    requires forall n <- nodes :: OkValue(OneShot(x), ListType(u), n, path, PyList(items))
    ensures var out := CompleteValue(x, ListType(u), nodes, path, PyList(items));
            Clean(out) && Anchored(f => Tells(out.ending.json, path, f), out.deferred, out.streamed)
    decreases Size(nodes, x.weight), 1, u, 3 + |items|
  {
    CleanList(x, u, nodes, path, items);
    var now := ListParts(x, u, nodes, path, items);
    forall n <- nodes ensures OkItems(OneShot(x), u, n, path, items[..now], 0) {
      assert OkValue(OneShot(x), ListType(u), n, path, PyList(items));
      OkItemsSplit(OneShot(x), u, n, path, items, 0, now);
    }
    ItemsAnchor(x, u, nodes, path, items[..now], 0);
    var inner := CompleteItems(x, u, nodes, path, items[..now], 0);
    var told := f => Tells(inner.ending.json, path, f);
    AnchoredMore(f => TellsItems(inner.ending.json.items, path, 0, f), told, inner.deferred, inner.streamed);
    RemainderAnchored(u, nodes, path, items, now, inner.ending.json);
    AnchoredBoth(told, [], Remainder(u, nodes, path, items, now), inner.deferred, inner.streamed);
    assert [] + inner.deferred == inner.deferred;
  }

  lemma RemainderAnchored(u: TypeRef, nodes: seq<Selection>, path: Path, items: seq<PyValue>, now: nat, json: Json)
    requires now <= |items| && json.JList? && |json.items| == now
    ensures Anchored(f => Tells(json, path, f), [], Remainder(u, nodes, path, items, now))
  {
    if now > 0 {
      LastItemTold(json.items, path, 0);
      assert (f => Tells(json, path, f))(Fact(path + [Index(now - 1)], MarkOf(json.items[now - 1])));
    }
  }

  lemma {:induction false} LastItemTold(items: seq<Json>, path: Path, from: nat)
    requires items != []
    ensures TellsItems(items, path, from, Fact(path + [Index(from + |items| - 1)], MarkOf(items[|items| - 1])))
    decreases |items|
  {
    if |items| > 1 { LastItemTold(items[1..], path, from + 1); }
  }

  lemma {:induction false} ItemsAnchor(x: Exec, t: TypeRef, nodes: seq<Selection>, path: Path, items: seq<PyValue>,
      from: nat)
    requires Finite(x) && Together(OneShot(x), t, nodes) && ItemsOk(OneShot(x), t, nodes, path, items, from)
    ensures var out := CompleteItems(x, t, nodes, path, items, from);
            && Clean(out) && |out.ending.json.items| == |items|
            && Anchored(f => TellsItems(out.ending.json.items, path, from, f), out.deferred, out.streamed)
    decreases Size(nodes, x.weight), 1, t, 2 + |items|
  {
    CleanItems(x, t, nodes, path, items, from);
    if items != [] {
      ItemsOkOne(OneShot(x), t, nodes, path, items, from);
      ValueAnchors(x, t, nodes, path + [Index(from)], items[0]);
      ItemsAnchor(x, t, nodes, path, items[1..], from + 1);
      AheadAnchored(CompleteValue(x, t, nodes, path + [Index(from)], items[0]),
                    CompleteItems(x, t, nodes, path, items[1..], from + 1), path, from);
    }
  }

  lemma {:induction false} ObjectAnchors(x: Exec, name: string, nodes: seq<Selection>, path: Path, value: PyValue)
    requires Finite(x) && Together(OneShot(x), NamedType(name), nodes) && !value.PyNull? && !IsLeaf(x.env, name)
    requires forall n <- nodes :: OkValue(OneShot(x), NamedType(name), n, path, value)
    ensures var out := CompleteValue(x, NamedType(name), nodes, path, value);
            Clean(out) && Anchored(f => Tells(out.ending.json, path, f), out.deferred, out.streamed)
    decreases Size(nodes, x.weight), 1, NamedType(name), 0
  {
    var objectType := RuntimeName(x, name, nodes, path, value);
    var w := SubWalk(x, objectType, nodes);
    ObjectParts(x, name, objectType, nodes, path, value);
    CleanObject(x, name, objectType, value, nodes, path);
    SubWalkSize(x, objectType, nodes);
    FieldsAnchor(x, objectType, value, w.nodes, Keys(w.nodes), path, false);
    WithDeferredAnchored(objectType, value, path, w.deferred,
        ExecuteFields(x, objectType, value, w.nodes, Keys(w.nodes), path, false));
  }

  lemma WithDeferredAnchored(objectType: string, value: PyValue, path: Path, sets: seq<seq<Selection>>, inner: Out)
    requires Clean(inner) && inner.ending.json.JObject?
    requires Anchored(f => TellsEntries(inner.ending.json.entries, path, f), inner.deferred, inner.streamed)
    ensures var out := WithDeferred(objectType, value, path, sets, inner);
            Clean(out) && Anchored(f => Tells(out.ending.json, path, f), out.deferred, out.streamed)
  {
    var told := f => Tells(inner.ending.json, path, f);
    AnchoredMore(f => TellsEntries(inner.ending.json.entries, path, f), told, inner.deferred, inner.streamed);
    assert Anchored(told, DeferJobs(objectType, value, path, sets), []);
    AnchoredBoth(told, DeferJobs(objectType, value, path, sets), [], inner.deferred, inner.streamed);
    assert [] + inner.streamed == inner.streamed;
  }

  // ----- each job delivers what it had to say ----------------------------------------------------------

  /** A selection set executed on one object, its deferred fragments set aside: what an operation and a
      deferred fragment have in common. */
  function SelectionOut(x: Exec, objectType: string, source: PyValue, ss: seq<Selection>, path: Path, serial: bool): Out
    requires Finite(x)
  {
    var w := Walk(x.env, objectType, ss, {}, x.incremental);
    AllKeys(w.nodes);
    WithDeferred(objectType, source, path, w.deferred,
        ExecuteFields(x, objectType, source, w.nodes, Keys(w.nodes), path, serial))
  }

  lemma {:induction false} SelectionClean(x: Exec, objectType: string, source: PyValue, ss: seq<Selection>, path: Path,
      serial: bool)
    requires Finite(x) && x.incremental && DeferOk(OneShot(x), DeferJob(objectType, source, path, ss))
    ensures var w := Walk(x.env, objectType, ss, {}, true);
            && Consistent(OneShot(x), objectType, w.nodes) && OkNodes(OneShot(x), objectType, source, w.nodes, path)
            && JobsOk(OneShot(x), DeferJobs(objectType, source, path, w.deferred), [])
  {
    var y := OneShot(x);
    var w := Walk(x.env, objectType, ss, {}, true);
    var all := Walk(x.env, objectType, ss, {}, false).nodes;
    forall m ensures m in all <==> (m in w.nodes || exists d <- w.deferred ::
      m in Walk(x.env, objectType, d, {}, false).nodes) {
      WalkSplits(x, objectType, ss, m);
    }
    ConsistentSubset(y, objectType, w.nodes, all);
    forall j <- DeferJobs(objectType, source, path, w.deferred) ensures DeferOk(y, j) {
      assert j.selections in w.deferred;
      ConsistentSubset(y, objectType, JobNodes(y, j), all);
    }
  }

  lemma {:induction false} SelectionDelivers(x: Exec, objectType: string, source: PyValue, ss: seq<Selection>,
      path: Path, serial: bool)
    requires Finite(x) && x.incremental && DeferOk(OneShot(x), DeferJob(objectType, source, path, ss))
    ensures var out := SelectionOut(x, objectType, source, ss, path, serial);
            && Clean(out) && JobsOk(OneShot(x), out.deferred, out.streamed)
            && Anchored(f => Tells(out.ending.json, path, f), out.deferred, out.streamed)
  {
    var w := Walk(x.env, objectType, ss, {}, true);
    AllKeys(w.nodes);
    SelectionClean(x, objectType, source, ss, path, serial);
    CleanFields(x, objectType, source, w.nodes, Keys(w.nodes), path, serial);
    FieldsAnchor(x, objectType, source, w.nodes, Keys(w.nodes), path, serial);
    WithDeferredAnchored(objectType, source, path, w.deferred,
        ExecuteFields(x, objectType, source, w.nodes, Keys(w.nodes), path, serial));
  }

  lemma {:induction false} SelectionSays(x: Exec, objectType: string, source: PyValue, ss: seq<Selection>, path: Path,
      serial: bool, f: Fact)
    requires Finite(x) && x.incremental && DeferOk(OneShot(x), DeferJob(objectType, source, path, ss))
    ensures OutSays(OneShot(x), SelectionOut(x, objectType, source, ss, path, serial), path, f)
            <==> DeferSays(OneShot(x), DeferJob(objectType, source, path, ss), f)
  {
    var y := OneShot(x);
    var w := Walk(x.env, objectType, ss, {}, true);
    SelectionClean(x, objectType, source, ss, path, serial);
    WholeFieldsSay(x, objectType, source, w.nodes, path, serial, f);
    var inner := ExecuteFields(x, objectType, source, w.nodes, Keys(w.nodes), path, serial);
    EntriesSayParts(y, objectType, source, path, w.deferred, inner, f);
    JobsOfSets(y, objectType, source, path, w.deferred, f);
    SetsSay(x, objectType, source, ss, path, f);
  }

  lemma SetsSay(x: Exec, objectType: string, source: PyValue, ss: seq<Selection>, path: Path, f: Fact)
    requires Finite(x) && x.incremental
    ensures var y := OneShot(x);
            var w := Walk(x.env, objectType, ss, {}, true);
            SaysNodes(y, objectType, source, Walk(x.env, objectType, ss, {}, false).nodes, path, f)
            <==> SaysNodes(y, objectType, source, w.nodes, path, f)
                 || exists d <- w.deferred :: SaysNodes(y, objectType, source,
                    Walk(y.env, objectType, d, {}, false).nodes, path, f)
  {
    var w := Walk(x.env, objectType, ss, {}, true);
    forall m ensures m in Walk(x.env, objectType, ss, {}, false).nodes
                     <==> (m in w.nodes || exists d <- w.deferred :: m in Walk(x.env, objectType, d, {}, false).nodes)
    {
      WalkSplits(x, objectType, ss, m);
    }
  }

  lemma {:induction false} ItemDelivers(x: Exec, job: StreamJob)
    requires Finite(x) && StreamOk(OneShot(x), job)
    ensures var out := ResolveItem(x, job);
            && Clean(out) && JobsOk(OneShot(x), out.deferred, out.streamed)
            && Anchored(f => Tells(out.ending.json, ItemPath(job), f), out.deferred, out.streamed)
            && JobsOk(OneShot(x), [], Rest(job))
  {
    ItemsOkOne(OneShot(x), job.ofType, job.nodes, job.path, job.items, job.next);
    CleanValue(x, job.ofType, job.nodes, ItemPath(job), job.items[0]);
    ValueAnchors(x, job.ofType, job.nodes, ItemPath(job), job.items[0]);
  }

  lemma {:induction false} ItemSays(x: Exec, job: StreamJob, f: Fact)
    requires Finite(x) && StreamOk(OneShot(x), job)
    ensures OutSays(OneShot(x), ResolveItem(x, job), ItemPath(job), f) || JobsSay(OneShot(x), [], Rest(job), f)
            <==> StreamSays(OneShot(x), job, f)
  {
    ItemsOkOne(OneShot(x), job.ofType, job.nodes, job.path, job.items, job.next);
    CleanValue(x, job.ofType, job.nodes, ItemPath(job), job.items[0]);
    ValueSays(x, job.ofType, job.nodes, ItemPath(job), job.items[0], f);
    assert ItemsSay(OneShot(x), job.ofType, job.nodes, job.path, job.items, job.next, f)
           <==> SomeSays(OneShot(x), job.ofType, job.nodes, ItemPath(job), job.items[0], f)
                || ItemsSay(OneShot(x), job.ofType, job.nodes, job.path, job.items[1..], job.next + 1, f);
    if |job.items| == 1 {
      assert job.items[1..] == [];
      assert !JobsSay(OneShot(x), [], [], f);
    } else {
      assert Rest(job)[0] in Rest(job);
      assert StreamSays(OneShot(x), Rest(job)[0], f)
          <==> ItemsSay(OneShot(x), job.ofType, job.nodes, job.path, job.items[1..], job.next + 1, f);
    }
  }

  // ----- the whole stream -----------------------------------------------------------------------------------

  predicate PayloadTells(p: Payload, f: Fact) { Tells(p.json, p.path, f) }

  /** Serving the head of the queues: the payload is free of errors, and with the remaining jobs it says
      what the jobs had to say. */
  lemma {:induction false} ServeDeferred(x: Exec, deferred: seq<DeferJob>, streamed: seq<StreamJob>)
    requires Finite(x) && x.incremental && JobsOk(OneShot(x), deferred, streamed) && deferred != []
    ensures var out := ResolveDeferred(x, deferred[0]);
            && Clean(out) && JobsOk(OneShot(x), deferred[1..] + out.deferred, streamed + out.streamed)
            && Anchored(f => Tells(out.ending.json, deferred[0].path, f), out.deferred, out.streamed)
  {
    var job := deferred[0];
    assert DeferOk(OneShot(x), job);
    SelectionDelivers(x, job.objectType, job.source, job.selections, job.path, false);
  }

  lemma {:induction false} ServedDeferredSays(x: Exec, deferred: seq<DeferJob>, streamed: seq<StreamJob>, f: Fact)
    requires Finite(x) && x.incremental && JobsOk(OneShot(x), deferred, streamed) && deferred != []
    ensures var out := ResolveDeferred(x, deferred[0]);
            JobsSay(OneShot(x), deferred, streamed, f)
            <==> (out.ending.Data? && Tells(out.ending.json, deferred[0].path, f))
                 || JobsSay(OneShot(x), deferred[1..] + out.deferred, streamed + out.streamed, f)
  {
    var job := deferred[0];
    var out := ResolveDeferred(x, job);
    assert DeferOk(OneShot(x), job);
    SelectionDelivers(x, job.objectType, job.source, job.selections, job.path, false);
    SelectionSays(x, job.objectType, job.source, job.selections, job.path, false, f);
    JobsSayBoth(OneShot(x), [job], [], deferred[1..], streamed, f);
    assert [job] + deferred[1..] == deferred && [] + streamed == streamed;
    JobsSayBoth(OneShot(x), deferred[1..], streamed, out.deferred, out.streamed, f);
  }

  lemma {:induction false} ServeItem(x: Exec, streamed: seq<StreamJob>)
    requires Finite(x) && JobsOk(OneShot(x), [], streamed) && Servable(streamed) && streamed != []
    ensures var out := ResolveItem(x, streamed[0]);
            && Clean(out) && JobsOk(OneShot(x), out.deferred, Rest(streamed[0]) + streamed[1..] + out.streamed)
            && Anchored(f => Tells(out.ending.json, ItemPath(streamed[0]), f), out.deferred, out.streamed)
  {
    assert StreamOk(OneShot(x), streamed[0]);
    ItemDelivers(x, streamed[0]);
  }

  lemma {:induction false} ServedItemSays(x: Exec, streamed: seq<StreamJob>, f: Fact)
    requires Finite(x) && JobsOk(OneShot(x), [], streamed) && Servable(streamed) && streamed != []
    ensures var out := ResolveItem(x, streamed[0]);
            JobsSay(OneShot(x), [], streamed, f)
            <==> (out.ending.Data? && Tells(out.ending.json, ItemPath(streamed[0]), f))
                 || JobsSay(OneShot(x), out.deferred, Rest(streamed[0]) + streamed[1..] + out.streamed, f)
  {
    var job := streamed[0];
    var out := ResolveItem(x, job);
    assert StreamOk(OneShot(x), job);
    ItemDelivers(x, job);
    ItemSays(x, job, f);
    JobsSayBoth(OneShot(x), [], [job], [], streamed[1..], f);
    assert [job] + streamed[1..] == streamed;
    JobsSayBoth(OneShot(x), [], Rest(job), [], streamed[1..], f);
    JobsSayBoth(OneShot(x), [], Rest(job) + streamed[1..], out.deferred, out.streamed, f);
    assert [] + out.deferred == out.deferred;
  }

  ghost predicate AnyTells(payloads: seq<Payload>, f: Fact) { exists p <- payloads :: PayloadTells(p, f) }

  lemma AnyTellsOne(p: Payload, rest: seq<Payload>, f: Fact)
    ensures AnyTells([p] + rest, f) <==> PayloadTells(p, f) || AnyTells(rest, f)
  {
    assert p in [p] + rest;
    assert forall q <- rest :: q in [p] + rest;
  }

  /** The payloads to come say exactly what the pending jobs have to say. */
  lemma {:induction false} PayloadsSay(x: Exec, deferred: seq<DeferJob>, streamed: seq<StreamJob>, f: Fact)
    requires Finite(x) && x.incremental && JobsOk(OneShot(x), deferred, streamed) && Servable(streamed)
    ensures AnyTells(Payloads(x, deferred, streamed), f) <==> JobsSay(OneShot(x), deferred, streamed, f)
    decreases Pending(x, deferred, streamed)
  {
    if deferred != [] {
      DeferredStep(x, deferred, streamed);
      ServeDeferred(x, deferred, streamed);
      ServedDeferredSays(x, deferred, streamed, f);
      var out := ResolveDeferred(x, deferred[0]);
      var d, s := deferred[1..] + out.deferred, streamed + out.streamed;
      PayloadsSay(x, d, s, f);
      AnyTellsOne(Payloads(x, deferred, streamed)[0], Payloads(x, d, s), f);
    } else if streamed != [] {
      ItemStep(x, streamed);
      ServeItem(x, streamed);
      ServedItemSays(x, streamed, f);
      var out := ResolveItem(x, streamed[0]);
      var d, s := out.deferred, Rest(streamed[0]) + streamed[1..] + out.streamed;
      PayloadsSay(x, d, s, f);
      AnyTellsOne(Payloads(x, deferred, streamed)[0], Payloads(x, d, s), f);
    }
  }

  /** Free of errors, and announcing its end on the last payload only. */
  predicate WellEnded(payloads: seq<Payload>) {
    forall i | 0 <= i < |payloads| :: payloads[i].errors == [] && (payloads[i].hasNext <==> i < |payloads| - 1)
  }

  lemma WellEndedOne(p: Payload, rest: seq<Payload>)
    requires p.errors == [] && (p.hasNext <==> rest != []) && WellEnded(rest)
    ensures WellEnded([p] + rest)
  {
    forall i | 0 <= i < |[p] + rest|
      ensures ([p] + rest)[i].errors == [] && (([p] + rest)[i].hasNext <==> i < |[p] + rest| - 1)
    {
      if i > 0 { assert ([p] + rest)[i] == rest[i - 1]; }
    }
  }

  /** Free of errors, well ended, and as many as are pending. */
  ghost predicate EndsWell(x: Exec, deferred: seq<DeferJob>, streamed: seq<StreamJob>)
    requires Finite(x) && Servable(streamed)
  {
    var ps := Payloads(x, deferred, streamed);
    && WellEnded(ps)
    && |ps| == Pending(x, deferred, streamed)
    && (ps == [] <==> deferred == [] && streamed == [])
  }

  lemma {:induction false} PayloadsEnd(x: Exec, deferred: seq<DeferJob>, streamed: seq<StreamJob>)
    requires Finite(x) && x.incremental && JobsOk(OneShot(x), deferred, streamed) && Servable(streamed)
    ensures EndsWell(x, deferred, streamed)
    decreases Pending(x, deferred, streamed), 1
  {
    if deferred != [] {
      DeferredEnds(x, deferred, streamed);
    } else if streamed != [] {
      ItemEnds(x, streamed);
    }
  }

  lemma {:induction false} DeferredEnds(x: Exec, deferred: seq<DeferJob>, streamed: seq<StreamJob>)
    requires Finite(x) && x.incremental && JobsOk(OneShot(x), deferred, streamed) && Servable(streamed)
             && deferred != []
    ensures EndsWell(x, deferred, streamed)
    decreases Pending(x, deferred, streamed), 0
  {
    DeferredStep(x, deferred, streamed);
    ServeDeferred(x, deferred, streamed);
    var out := ResolveDeferred(x, deferred[0]);
    var d, s := deferred[1..] + out.deferred, streamed + out.streamed;
    PayloadsEnd(x, d, s);
    WellEndedOne(Payload(deferred[0].path, out.ending.json, out.errors, d != [] || s != [], false), Payloads(x, d, s));
  }

  lemma {:induction false} ItemEnds(x: Exec, streamed: seq<StreamJob>)
    requires Finite(x) && x.incremental && JobsOk(OneShot(x), [], streamed) && Servable(streamed) && streamed != []
    ensures EndsWell(x, [], streamed)
    decreases Pending(x, [], streamed), 0
  {
    ItemStep(x, streamed);
    ServeItem(x, streamed);
    var out := ResolveItem(x, streamed[0]);
    var d, s := out.deferred, Rest(streamed[0]) + streamed[1..] + out.streamed;
    PayloadsEnd(x, d, s);
    WellEndedOne(Payload(ItemPath(streamed[0]), out.ending.json, out.errors, d != [] || s != [], true),
        Payloads(x, d, s));
  }

  // ----- payloads build on what has been delivered -------------------------------------------------------

  /** The place a payload adds to is already there: the object of a deferred fragment; the list of a
      streamed item, with the item before it. */
  ghost predicate BuildsOn(told: Fact -> bool, p: Payload) {
    if !p.item then told(Fact(p.path, IsObject))
    else
      && p.path != [] && p.path[|p.path| - 1].Index?
      && var list, i := p.path[..|p.path| - 1], p.path[|p.path| - 1].i;
         told(Fact(list, IsList)) && (i > 0 ==> Reached(told, list + [Index(i - 1)]))
  }

  /** Each payload builds on `told` and the payloads before it. */
  ghost predicate InOrder(told: Fact -> bool, payloads: seq<Payload>)
    decreases |payloads|
  {
    payloads != [] ==>
      BuildsOn(told, payloads[0]) && InOrder(f => told(f) || PayloadTells(payloads[0], f), payloads[1..])
  }

  lemma AnchoredAfterDeferred(told: Fact -> bool, deferred: seq<DeferJob>, streamed: seq<StreamJob>, p: Payload,
                              d: seq<DeferJob>, s: seq<StreamJob>)
    requires deferred != [] && Anchored(told, deferred, streamed) && p.path == deferred[0].path && !p.item
    requires Anchored(f => Tells(p.json, p.path, f), d, s)
    ensures BuildsOn(told, p)
    ensures Anchored(f => told(f) || PayloadTells(p, f), deferred[1..] + d, streamed + s)
  {
    var more := f => told(f) || PayloadTells(p, f);
    AnchoredMore(told, more, deferred[1..], streamed);
    AnchoredMore(f => Tells(p.json, p.path, f), more, d, s);
    AnchoredBoth(more, deferred[1..], streamed, d, s);
  }

  lemma AnchoredAfterItem(told: Fact -> bool, streamed: seq<StreamJob>, p: Payload, d: seq<DeferJob>, s: seq<StreamJob>)
    requires streamed != [] && Servable(streamed) && Anchored(told, [], streamed) && p.path == ItemPath(streamed[0])
             && p.item
    requires Anchored(f => Tells(p.json, p.path, f), d, s)
    ensures BuildsOn(told, p)
    ensures Anchored(f => told(f) || PayloadTells(p, f), d, Rest(streamed[0]) + streamed[1..] + s)
  {
    var more := f => told(f) || PayloadTells(p, f);
    assert p.path[..|p.path| - 1] == streamed[0].path;
    AnchoredMore(told, more, [], streamed[1..]);
    assert more(Fact(p.path, MarkOf(p.json)));
    AnchoredBoth(more, [], Rest(streamed[0]), [], streamed[1..]);
    AnchoredMore(f => Tells(p.json, p.path, f), more, d, s);
    AnchoredBoth(more, [], Rest(streamed[0]) + streamed[1..], d, s);
    assert [] + d == d;
  }

  lemma {:induction false} PayloadsInOrder(x: Exec, deferred: seq<DeferJob>, streamed: seq<StreamJob>,
      told: Fact -> bool)
    requires Finite(x) && x.incremental && JobsOk(OneShot(x), deferred, streamed) && Servable(streamed)
    requires Anchored(told, deferred, streamed)
    ensures InOrder(told, Payloads(x, deferred, streamed))
    decreases Pending(x, deferred, streamed), 1
  {
    if deferred != [] {
      DeferredInOrder(x, deferred, streamed, told);
    } else if streamed != [] {
      ItemInOrder(x, streamed, told);
    }
  }

  lemma {:induction false} DeferredInOrder(x: Exec, deferred: seq<DeferJob>, streamed: seq<StreamJob>,
      told: Fact -> bool)
    requires Finite(x) && x.incremental && JobsOk(OneShot(x), deferred, streamed) && Servable(streamed)
             && deferred != []
    requires Anchored(told, deferred, streamed)
    ensures InOrder(told, Payloads(x, deferred, streamed))
    decreases Pending(x, deferred, streamed), 0
  {
    var out := ResolveDeferred(x, deferred[0]);
    var d, s := deferred[1..] + out.deferred, streamed + out.streamed;
    DeferredStep(x, deferred, streamed);
    ServeDeferred(x, deferred, streamed);
    var p := Payload(deferred[0].path, out.ending.json, out.errors, d != [] || s != [], false);
    AnchoredAfterDeferred(told, deferred, streamed, p, out.deferred, out.streamed);
    PayloadsInOrder(x, d, s, f => told(f) || PayloadTells(p, f));
    InOrderOne(told, p, Payloads(x, d, s));
  }

  lemma {:induction false} ItemInOrder(x: Exec, streamed: seq<StreamJob>, told: Fact -> bool)
    requires Finite(x) && x.incremental && JobsOk(OneShot(x), [], streamed) && Servable(streamed) && streamed != []
    requires Anchored(told, [], streamed)
    ensures InOrder(told, Payloads(x, [], streamed))
    decreases Pending(x, [], streamed), 0
  {
    var out := ResolveItem(x, streamed[0]);
    var d, s := out.deferred, Rest(streamed[0]) + streamed[1..] + out.streamed;
    ItemStep(x, streamed);
    ServeItem(x, streamed);
    var p := Payload(ItemPath(streamed[0]), out.ending.json, out.errors, d != [] || s != [], true);
    AnchoredAfterItem(told, streamed, p, out.deferred, out.streamed);
    PayloadsInOrder(x, d, s, f => told(f) || PayloadTells(p, f));
    InOrderOne(told, p, Payloads(x, d, s));
  }

  lemma InOrderOne(told: Fact -> bool, p: Payload, rest: seq<Payload>)
    requires BuildsOn(told, p) && InOrder(f => told(f) || PayloadTells(p, f), rest)
    ensures InOrder(told, [p] + rest)
  {
    assert ([p] + rest)[1..] == rest;
  }

  // ----- a one-shot run leaves no jobs ------------------------------------------------------------------------

  predicate NoJobs(out: Out) { out.deferred == [] && out.streamed == [] }

  lemma {:induction false} QuietField(y: Exec, objectType: string, source: PyValue, nodes: seq<Selection>, path: Path)
    requires Ready(y) && nodes != []
    ensures NoJobs(ExecuteField(y, objectType, source, nodes, path))
    decreases Size(nodes, y.weight), 2
  {
    var node := nodes[0];
    if node.Field? && node.name != "__typename" && node.name in FieldTypes(y.env, objectType) {
      match y.world.resolve(objectType, node.name, Arguments.ArgumentsMap(node.arguments), source, path)
      case Raised(_) =>
      case Returned(value) => QuietValue(y, FieldTypes(y.env, objectType)[node.name], nodes, path, value);
    }
  }

  lemma {:induction false} QuietFields(y: Exec, objectType: string, source: PyValue, nodes: seq<Selection>,
                       keys: seq<string>, path: Path, serial: bool)
    requires Ready(y) && KeysOf(keys, nodes)
    ensures NoJobs(ExecuteFields(y, objectType, source, nodes, keys, path, serial))
    decreases Size(nodes, y.weight), 3, |keys|
  {
    if keys != [] {
      SizeUnder(nodes, keys[0], y.weight);
      QuietField(y, objectType, source, Under(nodes, keys[0]), path + [Key(keys[0])]);
      QuietFields(y, objectType, source, nodes, keys[1..], path, serial);
    }
  }

  lemma {:induction false} QuietValue(y: Exec, t: TypeRef, nodes: seq<Selection>, path: Path, value: PyValue)
    requires Ready(y) && nodes != []
    ensures NoJobs(CompleteValue(y, t, nodes, path, value))
    decreases Size(nodes, y.weight), 1, t, 1
  {
    match t
    case NonNull(u) => QuietValue(y, u, nodes, path, value);
    case ListType(u) =>
      if value.PyList? { QuietItems(y, u, nodes, path, value.items[..|value.items|], 0); }
    case NamedType(name) =>
      if !value.PyNull? && !IsLeaf(y.env, name) && IsComposite(y.env, name) && Infers(ConcreteType(y, name, value)) {
        var objectType := ConcreteType(y, name, value).name.value;
        var w := SubWalk(y, objectType, nodes);
        ObjectParts(y, name, objectType, nodes, path, value);
        SubWalkSize(y, objectType, nodes);
        QuietFields(y, objectType, value, w.nodes, Keys(w.nodes), path, false);
        SubWalkQuiet(y, objectType, nodes);
      }
  }

  lemma {:induction false} SubWalkQuiet(y: Exec, objectType: string, nodes: seq<Selection>)
    requires !y.incremental
    ensures SubWalk(y, objectType, nodes).deferred == []
  {
    if nodes != [] {
      if nodes[0].Field? && nodes[0].selectionSet.SelectionSet? {
        NothingSetAside(y.env, objectType, nodes[0].selectionSet.selections, {});
      }
      SubWalkQuiet(y, objectType, nodes[1..]);
    }
  }

  lemma {:induction false} QuietItems(y: Exec, t: TypeRef, nodes: seq<Selection>, path: Path, items: seq<PyValue>,
      from: nat)
    requires Ready(y) && nodes != []
    ensures NoJobs(CompleteItems(y, t, nodes, path, items, from))
    decreases Size(nodes, y.weight), 1, t, 2 + |items|
  {
    if items != [] {
      QuietValue(y, t, nodes, path + [Index(from)], items[0]);
      QuietItems(y, t, nodes, path, items[1..], from + 1);
    }
  }

  // ----- the theorem --------------------------------------------------------------------------------------------

  /** A one-shot run of the operation that records no error. */
  ghost predicate ErrorFree(y: Exec, rootType: string, rootValue: PyValue, ss: seq<Selection>, mutation: bool)
    requires Ready(y)
  {
    && Sound(y)
    && Consistent(y, rootType, Walk(y.env, rootType, ss, {}, false).nodes)
    && ExecuteOperation(y, rootType, rootValue, ss, mutation).errors == []
  }

  lemma {:induction false} RootOk(y: Exec, rootType: string, rootValue: PyValue, ss: seq<Selection>, mutation: bool)
    requires Ready(y) && ErrorFree(y, rootType, rootValue, ss, mutation)
    ensures DeferOk(y, DeferJob(rootType, rootValue, [], ss))
  {
    var nodes := Walk(y.env, rootType, ss, {}, false).nodes;
    AllKeys(nodes);
    KeysExact(nodes);
    FieldsWereOk(y, rootType, rootValue, nodes, Keys(nodes), [], mutation);
  }

  lemma {:induction false} ResponseTells(y: Exec, rootType: string, rootValue: PyValue, ss: seq<Selection>,
      mutation: bool, f: Fact)
    requires Ready(y) && ErrorFree(y, rootType, rootValue, ss, mutation)
    ensures Tells(Response(y, rootType, rootValue, ss, mutation), [], f)
            <==> DeferSays(y, DeferJob(rootType, rootValue, [], ss), f)
  {
    var nodes := Walk(y.env, rootType, ss, {}, false).nodes;
    RootOk(y, rootType, rootValue, ss, mutation);
    assert OneShot(y) == y;
    WholeFieldsSay(y, rootType, rootValue, nodes, [], mutation, f);
    QuietFields(y, rootType, rootValue, nodes, Keys(nodes), [], mutation);
    var out := ExecuteFields(y, rootType, rootValue, nodes, Keys(nodes), [], mutation);
    QuietTells(y, out, f);
    assert Response(y, rootType, rootValue, ss, mutation) == out.ending.json;
  }

  lemma QuietTells(y: Exec, out: Out, f: Fact)
    requires Ready(y) && NoJobs(out) && out.ending.Data? && out.ending.json.JObject?
    ensures !JobsSay(y, out.deferred, out.streamed, f)
    ensures Tells(out.ending.json, [], f) <==> f == Fact([], IsObject) || TellsEntries(out.ending.json.entries, [], f)
  {
  }

  /** Incremental delivery preserves meaning: when the one-shot run of an operation whose field groups
      merge records no error, the payloads together tell exactly the facts the one-shot response
      tells; so every prefix of the payloads is a part of that answer. */
  lemma IncrementalPreservesMeaning(x: Exec, rootType: string, rootValue: PyValue, ss: seq<Selection>, mutation: bool,
      f: Fact)
    requires Finite(x) && x.incremental && ErrorFree(OneShot(x), rootType, rootValue, ss, mutation)
    ensures AnyTells(RunIncremental(x, rootType, rootValue, ss, mutation), f)
            <==> Tells(Response(OneShot(x), rootType, rootValue, ss, mutation), [], f)
  {
    var y := OneShot(x);
    var out := ExecuteOperation(x, rootType, rootValue, ss, mutation);
    RootOk(y, rootType, rootValue, ss, mutation);
    ResponseTells(y, rootType, rootValue, ss, mutation, f);
    OperationServable(x, rootType, rootValue, ss, mutation);
    assert out == SelectionOut(x, rootType, rootValue, ss, [], mutation);
    SelectionDelivers(x, rootType, rootValue, ss, [], mutation);
    SelectionSays(x, rootType, rootValue, ss, [], mutation, f);
    PayloadsSay(x, out.deferred, out.streamed, f);
    AnyTellsOne(RunIncremental(x, rootType, rootValue, ss, mutation)[0], Payloads(x, out.deferred, out.streamed), f);
  }

  /** The stream discipline: the run ends after the initial payload and those pending behind it, no
      payload carries an error, `hasNext` is false on exactly the last payload, and each payload adds
      to a container already delivered, streamed items one after the other. */
  lemma IncrementalDiscipline(x: Exec, rootType: string, rootValue: PyValue, ss: seq<Selection>, mutation: bool)
    requires Finite(x) && x.incremental && ErrorFree(OneShot(x), rootType, rootValue, ss, mutation)
    ensures var ps := RunIncremental(x, rootType, rootValue, ss, mutation);
            && WellEnded(ps)
            && InOrder(f => PayloadTells(ps[0], f), ps[1..])
  {
    var out := ExecuteOperation(x, rootType, rootValue, ss, mutation);
    RootOk(OneShot(x), rootType, rootValue, ss, mutation);
    OperationServable(x, rootType, rootValue, ss, mutation);
    assert out == SelectionOut(x, rootType, rootValue, ss, [], mutation);
    SelectionDelivers(x, rootType, rootValue, ss, [], mutation);
    PayloadsEnd(x, out.deferred, out.streamed);
    var ps := RunIncremental(x, rootType, rootValue, ss, mutation);
    var rest := Payloads(x, out.deferred, out.streamed);
    WellEndedOne(ps[0], rest);
    assert ps[1..] == rest;
    AnchoredMore(f => Tells(out.ending.json, [], f), f => PayloadTells(ps[0], f), out.deferred, out.streamed);
    PayloadsInOrder(x, out.deferred, out.streamed, f => PayloadTells(ps[0], f));
  }
}
