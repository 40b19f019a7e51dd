/** Incremental delivery: the initial response together with the payloads of all deferred fragments
    and streamed items says exactly what the one-shot response says. */
module Incremental {
  import opened Ast
  import opened Arguments
  import opened CollectFields
  import opened Executor
  import opened NullPropagation
  import opened Reports
  import opened Gist

  // ----- what pending jobs have still to say --------------------------------------------------

  /** The fields a deferred fragment selects, deferral aside. */
  function JobNodes(y: Exec, job: DeferJob): seq<Selection> {
    Walk(y.env, job.objectType, job.selections, {}, false).nodes
  }

  predicate SaysNodes(y: Exec, objectType: string, source: PyValue, nodes: seq<Selection>, path: Path, f: Fact)
    requires Ready(y)
  {
    exists m <- nodes :: SaysField(y, objectType, source, m, path + [Key(ResponseKey(m))], f)
  }

  predicate OkNodes(y: Exec, objectType: string, source: PyValue, nodes: seq<Selection>, path: Path)
    requires Ready(y)
  {
    forall m <- nodes :: OkField(y, objectType, source, m, path + [Key(ResponseKey(m))])
  }

  predicate DeferSays(y: Exec, job: DeferJob, f: Fact)
    requires Ready(y)
  {
    f == Fact(job.path, IsObject) || SaysNodes(y, job.objectType, job.source, JobNodes(y, job), job.path, f)
  }

  ghost predicate DeferOk(y: Exec, job: DeferJob)
    requires Ready(y)
  {
    Consistent(y, job.objectType, JobNodes(y, job))
        && OkNodes(y, job.objectType, job.source, JobNodes(y, job), job.path)
  }

  predicate SomeSays(y: Exec, t: TypeRef, nodes: seq<Selection>, path: Path, value: PyValue, f: Fact)
    requires Ready(y)
  {
    exists n <- nodes :: SaysValue(y, t, n, path, value, f)
  }

  predicate ItemsSay(y: Exec, t: TypeRef, nodes: seq<Selection>, path: Path, items: seq<PyValue>, from: nat, f: Fact)
    requires Ready(y)
    decreases |items|
  {
    items != [] &&
    (SomeSays(y, t, nodes, path + [Index(from)], items[0], f) || ItemsSay(y, t, nodes, path, items[1..], from + 1, f))
  }

  predicate ItemsOk(y: Exec, t: TypeRef, nodes: seq<Selection>, path: Path, items: seq<PyValue>, from: nat)
    requires Ready(y)
  {
    forall n <- nodes :: OkItems(y, t, n, path, items, from)
  }

  predicate StreamSays(y: Exec, job: StreamJob, f: Fact)
    requires Ready(y)
  {
    ItemsSay(y, job.ofType, job.nodes, job.path, job.items, job.next, f)
  }

  ghost predicate StreamOk(y: Exec, job: StreamJob)
    requires Ready(y)
  {
    && job.items != []
    && Together(y, job.ofType, job.nodes)
    && ItemsOk(y, job.ofType, job.nodes, job.path, job.items, job.next)
  }

  predicate JobsSay(y: Exec, deferred: seq<DeferJob>, streamed: seq<StreamJob>, f: Fact)
    requires Ready(y)
  {
    (exists j <- deferred :: DeferSays(y, j, f)) || (exists j <- streamed :: StreamSays(y, j, f))
  }

  ghost predicate JobsOk(y: Exec, deferred: seq<DeferJob>, streamed: seq<StreamJob>)
    requires Ready(y)
  {
    (forall j <- deferred :: DeferOk(y, j)) && (forall j <- streamed :: StreamOk(y, j))
  }

  lemma {:induction false} ItemsSayOne(y: Exec, t: TypeRef, nodes: seq<Selection>, path: Path, items: seq<PyValue>,
      from: nat, f: Fact)
    requires Ready(y)
    ensures ItemsSay(y, t, nodes, path, items, from, f)
            <==> exists n <- nodes :: SaysItems(y, t, n, path, items, from, f)
    decreases |items|
  {
    if items != [] { ItemsSayOne(y, t, nodes, path, items[1..], from + 1, f); }
  }

  lemma {:induction false} ItemsSaySplit(y: Exec, t: TypeRef, nodes: seq<Selection>, path: Path, items: seq<PyValue>,
      from: nat, now: nat, f: Fact)
    requires Ready(y) && now <= |items|
    ensures ItemsSay(y, t, nodes, path, items, from, f) <==>
            ItemsSay(y, t, nodes, path, items[..now], from, f)
                || ItemsSay(y, t, nodes, path, items[now..], from + now, f)
    decreases |items|
  {
    if now > 0 {
      var rest := items[1..];
      ItemsSaySplit(y, t, nodes, path, rest, from + 1, now - 1, f);
      assert items[..now][0] == items[0] && items[..now][1..] == rest[..now - 1];
      assert items[now..] == rest[now - 1..] && from + 1 + (now - 1) == from + now;
    } else {
      assert items[..now] == [] && items[now..] == items;
    }
  }

  lemma {:induction false} OkItemsSplit(y: Exec, t: TypeRef, n: Selection, path: Path, items: seq<PyValue>, from: nat,
      now: nat)
    requires Ready(y) && now <= |items| && OkItems(y, t, n, path, items, from)
    ensures OkItems(y, t, n, path, items[..now], from) && OkItems(y, t, n, path, items[now..], from + now)
    decreases |items|
  {
    if now > 0 {
      var rest := items[1..];
      OkItemsSplit(y, t, n, path, rest, from + 1, now - 1);
      assert items[..now][0] == items[0] && items[..now][1..] == rest[..now - 1];
      assert items[now..] == rest[now - 1..] && from + 1 + (now - 1) == from + now;
    } else {
      assert items[..now] == [] && items[now..] == items;
    }
  }

  // ----- nothing goes wrong ----------------------------------------------------------------------

  predicate Clean(out: Out) { out.ending.Data? && out.errors == [] }

  /** Nodes of one field position whose type is `t`: alike, mergeable. */
  ghost predicate Together(y: Exec, t: TypeRef, nodes: seq<Selection>)
    requires Ready(y)
  {
    && nodes != [] && (forall n <- nodes, m <- nodes :: Alike(n, m))
    && (IsComposite(y.env, NamedOf(t)) ==> Mergeable(y, NamedOf(t), nodes))
  }

  /** Nodes of one response key on an object. */
  ghost predicate FieldTogether(y: Exec, objectType: string, nodes: seq<Selection>)
    requires Ready(y)
  {
    && nodes != [] && (forall n <- nodes, m <- nodes :: Alike(n, m))
    && (Descends(y.env, objectType, nodes[0]) ==> Mergeable(y, TypeBelow(y.env, objectType, nodes[0]), nodes))
  }

  lemma GroupTogether(y: Exec, objectType: string, nodes: seq<Selection>, key: string)
    requires Ready(y) && Consistent(y, objectType, nodes) && Under(nodes, key) != []
    ensures FieldTogether(y, objectType, Under(nodes, key))
  {
    UnderExact(nodes, key);
  }

  lemma NodeParts(x: Exec, objectType: string, n: Selection, m: Selection)
    ensures var w := NodeWalk(x, objectType, n);
            m in NodeWalk(OneShot(x), objectType, n).nodes
            <==> (m in w.nodes || exists d <- w.deferred :: m in Walk(x.env, objectType, d, {}, false).nodes)
  {
    if n.Field? && n.selectionSet.SelectionSet? {
      if x.incremental { WalkSplits(x, objectType, n.selectionSet.selections, m); }
      else { NothingSetAside(x.env, objectType, n.selectionSet.selections, {}); }
    }
  }

  /** The sub-selections an execution collects together with the deferred ones are the merged whole. */
  lemma SubWalkParts(x: Exec, objectType: string, nodes: seq<Selection>, m: Selection)
    ensures var w := SubWalk(x, objectType, nodes);
            m in SubWalk(OneShot(x), objectType, nodes).nodes
            <==> (m in w.nodes || exists d <- w.deferred :: m in Walk(x.env, objectType, d, {}, false).nodes)
    decreases |nodes|
  {
    if nodes != [] {
      NodeParts(x, objectType, nodes[0], m);
      SubWalkParts(x, objectType, nodes[1..], m);
    }
  }

  lemma {:induction false} CleanField(x: Exec, objectType: string, source: PyValue, nodes: seq<Selection>, path: Path)
    requires Finite(x) && FieldTogether(OneShot(x), objectType, nodes)
    requires forall n <- nodes :: OkField(OneShot(x), objectType, source, n, path)
    ensures var out := ExecuteField(x, objectType, source, nodes, path);
            Clean(out) && JobsOk(OneShot(x), out.deferred, out.streamed)
    decreases Size(nodes, x.weight), 2
  {
    var node := nodes[0];
    assert OkField(OneShot(x), objectType, source, node, path);
    if node.name != "__typename" && node.name in FieldTypes(x.env, objectType) {
      var t := FieldTypes(x.env, objectType)[node.name];
      var value := x.world.resolve(objectType, node.name, ArgumentsMap(node.arguments), source, path).value;
      forall n <- nodes ensures OkValue(OneShot(x), t, n, path, value) {
        assert Alike(node, n);
        assert OkField(OneShot(x), objectType, source, n, path);
      }
      CleanValue(x, t, nodes, path, value);
    }
  }

  lemma {:induction false} CleanFields(x: Exec, objectType: string, source: PyValue, nodes: seq<Selection>,
                    keys: seq<string>, path: Path, serial: bool)
    requires Finite(x) && KeysOf(keys, nodes)
    requires Consistent(OneShot(x), objectType, nodes) && OkNodes(OneShot(x), objectType, source, nodes, path)
    ensures var out := ExecuteFields(x, objectType, source, nodes, keys, path, serial);
            Clean(out) && JobsOk(OneShot(x), out.deferred, out.streamed)
    decreases Size(nodes, x.weight), 3, |keys|
  {
    if keys != [] {
      SizeUnder(nodes, keys[0], x.weight);
      UnderExact(nodes, keys[0]);
      GroupTogether(OneShot(x), objectType, nodes, keys[0]);
      CleanField(x, objectType, source, Under(nodes, keys[0]), path + [Key(keys[0])]);
      CleanFields(x, objectType, source, nodes, keys[1..], path, serial);
    }
  }

  lemma {:induction false} CleanValue(x: Exec, t: TypeRef, nodes: seq<Selection>, path: Path, value: PyValue)
    requires Finite(x) && Together(OneShot(x), t, nodes)
    requires forall n <- nodes :: OkValue(OneShot(x), t, n, path, value)
    ensures var out := CompleteValue(x, t, nodes, path, value);
            && Clean(out) && JobsOk(OneShot(x), out.deferred, out.streamed)
            && (out.ending.json.JNull? ==> value.PyNull?)
    decreases Size(nodes, x.weight), 1, t, 1
  {
    assert OkValue(OneShot(x), t, nodes[0], path, value);
    match t
    case NonNull(u) =>
      forall n <- nodes ensures OkValue(OneShot(x), u, n, path, value) {
        assert OkValue(OneShot(x), t, n, path, value);
      }
      CleanValue(x, u, nodes, path, value);
    case ListType(u) => if !value.PyNull? { CleanList(x, u, nodes, path, value.items); }
    case NamedType(name) => if !value.PyNull? && !IsLeaf(x.env, name) { CleanComposite(x, name, nodes, path, value); }
  }

  lemma {:induction false} CleanComposite(x: Exec, name: string, nodes: seq<Selection>, path: Path, value: PyValue)
    requires Finite(x) && Together(OneShot(x), NamedType(name), nodes) && !value.PyNull? && !IsLeaf(x.env, name)
    requires forall n <- nodes :: OkValue(OneShot(x), NamedType(name), n, path, value)
    ensures var out := CompleteValue(x, NamedType(name), nodes, path, value);
            Clean(out) && JobsOk(OneShot(x), out.deferred, out.streamed) && out.ending.json.JObject?
    decreases Size(nodes, x.weight), 1, NamedType(name), 0
  {
    var objectType := RuntimeName(x, name, nodes, path, value);
    var sub := SubWalk(x, objectType, nodes);
    ObjectParts(x, name, objectType, nodes, path, value);
    CleanObject(x, name, objectType, value, nodes, path);
    SubWalkSize(x, objectType, nodes);
    CleanFields(x, objectType, value, sub.nodes, Keys(sub.nodes), path, false);
  }

  lemma RuntimeName(x: Exec, name: string, nodes: seq<Selection>, path: Path, value: PyValue)
    returns (objectType: string)
    requires Finite(x) && nodes != [] && !value.PyNull? && !IsLeaf(x.env, name)
    requires forall n <- nodes :: OkValue(OneShot(x), NamedType(name), n, path, value)
    ensures IsComposite(x.env, name) && ConcreteType(x, name, value) == Inferred(Some(objectType))
    ensures ConcreteType(OneShot(x), name, value) == Inferred(Some(objectType))
    ensures ChildrenOk(OneShot(x), objectType, value, nodes, path)
  {
    assert OkValue(OneShot(x), NamedType(name), nodes[0], path, value);
    objectType := ConcreteType(OneShot(x), name, value).name.value;
    forall n <- nodes ensures OkNodes(OneShot(x), objectType, value, ChildFields(OneShot(x), objectType, n), path) {
      assert OkValue(OneShot(x), NamedType(name), n, path, value);
    }
  }

  /** Everything the nodes select below an object is free of errors. */
  predicate ChildrenOk(y: Exec, objectType: string, value: PyValue, nodes: seq<Selection>, path: Path)
    requires Ready(y)
  {
    forall n <- nodes :: OkNodes(y, objectType, value, ChildFields(y, objectType, n), path)
  }

  /** Completing an object: jobs for its deferred fragments, and its fields. */
  lemma ObjectParts(x: Exec, name: string, objectType: string, nodes: seq<Selection>, path: Path, value: PyValue)
    requires Finite(x) && nodes != [] && !value.PyNull? && !IsLeaf(x.env, name) && IsComposite(x.env, name)
    requires ConcreteType(x, name, value) == Inferred(Some(objectType))
    ensures var w := SubWalk(x, objectType, nodes);
            && KeysOf(Keys(w.nodes), w.nodes)
            && CompleteValue(x, NamedType(name), nodes, path, value)
               == WithDeferred(objectType, value, path, w.deferred,
                   ExecuteFields(x, objectType, value, w.nodes, Keys(w.nodes), path, false))
  {
    AllKeys(SubWalk(x, objectType, nodes).nodes);
  }

  function WithDeferred(objectType: string, value: PyValue, path: Path, sets: seq<seq<Selection>>, out: Out): Out {
    out.(ending := Absorbed(out.ending), deferred := DeferJobs(objectType, value, path, sets) + out.deferred)
  }

  lemma {:induction false} CleanList(x: Exec, u: TypeRef, nodes: seq<Selection>, path: Path, items: seq<PyValue>)
    requires Finite(x) && Together(OneShot(x), ListType(u), nodes)
    requires forall n <- nodes :: OkValue(OneShot(x), ListType(u), n, path, PyList(items))
    ensures var out := CompleteValue(x, ListType(u), nodes, path, PyList(items));
            && Clean(out) && JobsOk(OneShot(x), out.deferred, out.streamed)
            && out.ending.json.JList?
    decreases Size(nodes, x.weight), 1, u, 3 + |items|
  {
    var now := if x.incremental then Initial(x, nodes[0], items) else |items|;
    forall n <- nodes
      ensures OkItems(OneShot(x), u, n, path, items[..now], 0) && OkItems(OneShot(x), u, n, path, items[now..], now)
    {
      assert OkValue(OneShot(x), ListType(u), n, path, PyList(items));
      OkItemsSplit(OneShot(x), u, n, path, items, 0, now);
    }
    CleanItems(x, u, nodes, path, items[..now], 0);
    assert now < |items| ==> StreamOk(OneShot(x), StreamJob(u, nodes, path, items[now..], now));
  }

  lemma {:induction false} CleanItems(x: Exec, t: TypeRef, nodes: seq<Selection>, path: Path, items: seq<PyValue>,
      from: nat)
    requires Finite(x) && Together(OneShot(x), t, nodes) && ItemsOk(OneShot(x), t, nodes, path, items, from)
    ensures var out := CompleteItems(x, t, nodes, path, items, from);
            Clean(out) && JobsOk(OneShot(x), out.deferred, out.streamed)
    decreases Size(nodes, x.weight), 1, t, 2 + |items|
  {
    if items != [] {
      ItemsOkOne(OneShot(x), t, nodes, path, items, from);
      CleanValue(x, t, nodes, path + [Index(from)], items[0]);
      CleanItems(x, t, nodes, path, items[1..], from + 1);
    }
  }

  /** Below an object position everything is consistent and free of errors, deferred fragments included. */
  lemma {:induction false} CleanObject(x: Exec, name: string, objectType: string, value: PyValue, nodes: seq<Selection>,
      path: Path)
    requires Finite(x) && nodes != [] && Mergeable(OneShot(x), name, nodes) && CanBe(x.env, name, objectType)
    requires ChildrenOk(OneShot(x), objectType, value, nodes, path)
    ensures var y := OneShot(x);
            var w := SubWalk(x, objectType, nodes);
            && Consistent(y, objectType, w.nodes) && OkNodes(y, objectType, value, w.nodes, path)
            && forall j <- DeferJobs(objectType, value, path, w.deferred) :: DeferOk(y, j)
  {
    var y := OneShot(x);
    var w := SubWalk(x, objectType, nodes);
    var all := SubWalk(y, objectType, nodes).nodes;
    SubWalkMember(y, objectType, nodes);
    assert OkNodes(y, objectType, value, all, path);
    assert Consistent(y, objectType, all);
    forall m ensures m in all <==> (m in w.nodes || exists d <- w.deferred ::
      m in Walk(x.env, objectType, d, {}, false).nodes) {
      SubWalkParts(x, objectType, nodes, m);
    }
    ConsistentSubset(y, objectType, w.nodes, all);
    forall j <- DeferJobs(objectType, value, path, w.deferred) ensures DeferOk(y, j) {
      assert j.selections in w.deferred;
      ConsistentSubset(y, objectType, JobNodes(y, j), all);
    }
  }

  // ----- data and pending jobs together say what the nodes say -------------------------------------

  predicate OutSays(y: Exec, out: Out, path: Path, f: Fact)
    requires Ready(y)
  {
    out.ending.Data? && (Tells(out.ending.json, path, f) || JobsSay(y, out.deferred, out.streamed, f))
  }

  lemma JobsSayBoth(y: Exec, d1: seq<DeferJob>, s1: seq<StreamJob>, d2: seq<DeferJob>, s2: seq<StreamJob>, f: Fact)
    requires Ready(y)
    ensures JobsSay(y, d1 + d2, s1 + s2, f) <==> JobsSay(y, d1, s1, f) || JobsSay(y, d2, s2, f)
  {
  }

  lemma {:induction false} FieldSays(x: Exec, objectType: string, source: PyValue, nodes: seq<Selection>, path: Path,
      f: Fact)
    requires Finite(x) && FieldTogether(OneShot(x), objectType, nodes)
    requires forall n <- nodes :: OkField(OneShot(x), objectType, source, n, path)
    ensures OutSays(OneShot(x), ExecuteField(x, objectType, source, nodes, path), path, f)
            <==> exists n <- nodes :: SaysField(OneShot(x), objectType, source, n, path, f)
    decreases Size(nodes, x.weight), 2
  {
    var node := nodes[0];
    assert OkField(OneShot(x), objectType, source, node, path);
    assert forall n <- nodes :: Alike(node, n);
    if node.name != "__typename" && node.name in FieldTypes(x.env, objectType) {
      var t := FieldTypes(x.env, objectType)[node.name];
      var value := x.world.resolve(objectType, node.name, ArgumentsMap(node.arguments), source, path).value;
      forall n <- nodes
        ensures OkValue(OneShot(x), t, n, path, value)
        ensures SaysField(OneShot(x), objectType, source, n, path, f) <==> SaysValue(OneShot(x), t, n, path, value, f)
      {
        assert OkField(OneShot(x), objectType, source, n, path);
      }
      CleanValue(x, t, nodes, path, value);
      ValueSays(x, t, nodes, path, value, f);
    } else {
      assert SaysField(OneShot(x), objectType, source, node, path, f)
             <==> Tells(ExecuteField(x, objectType, source, nodes, path).ending.json, path, f);
      assert forall n <- nodes :: SaysField(OneShot(x), objectType, source, n, path, f)
                                  <==> SaysField(OneShot(x), objectType, source, node, path, f);
      assert !JobsSay(OneShot(x), [], [], f);
      assert node in nodes;
    }
  }

  lemma {:induction false} FieldsSay(x: Exec, objectType: string, source: PyValue, nodes: seq<Selection>,
                    keys: seq<string>, path: Path, serial: bool, f: Fact)
    requires Finite(x) && KeysOf(keys, nodes)
    requires Consistent(OneShot(x), objectType, nodes) && OkNodes(OneShot(x), objectType, source, nodes, path)
    ensures var out := ExecuteFields(x, objectType, source, nodes, keys, path, serial);
            && out.ending.Data?
            && ((TellsEntries(out.ending.json.entries, path, f) || JobsSay(OneShot(x), out.deferred, out.streamed, f))
                <==> exists m <- nodes ::
                       ResponseKey(m) in keys
                       && SaysField(OneShot(x), objectType, source, m, path + [Key(ResponseKey(m))], f))
    decreases Size(nodes, x.weight), 3, |keys|
  {
    CleanFields(x, objectType, source, nodes, keys, path, serial);
    if keys != [] {
      var key := keys[0];
      SizeUnder(nodes, key, x.weight);
      UnderExact(nodes, key);
      GroupTogether(OneShot(x), objectType, nodes, key);
      CleanField(x, objectType, source, Under(nodes, key), path + [Key(key)]);
      CleanFields(x, objectType, source, nodes, keys[1..], path, serial);
      FieldSays(x, objectType, source, Under(nodes, key), path + [Key(key)], f);
      FieldsSay(x, objectType, source, nodes, keys[1..], path, serial, f);
      var h := ExecuteField(x, objectType, source, Under(nodes, key), path + [Key(key)]);
      var t := ExecuteFields(x, objectType, source, nodes, keys[1..], path, serial);
      JobsSayBoth(OneShot(x), h.deferred, h.streamed, t.deferred, t.streamed, f);
      EntriesTell(Entry(key, h.ending.json), t.ending.json.entries, path, f);
    }
  }

  lemma EntriesTell(e: Entry, rest: seq<Entry>, path: Path, f: Fact)
    ensures TellsEntries([e] + rest, path, f) <==> Tells(e.value, path + [Key(e.key)], f) || TellsEntries(rest, path, f)
  {
    assert ([e] + rest)[1..] == rest;
  }

  lemma ItemsTell(item: Json, rest: seq<Json>, path: Path, from: nat, f: Fact)
    ensures TellsItems([item] + rest, path, from, f)
            <==> Tells(item, path + [Index(from)], f) || TellsItems(rest, path, from + 1, f)
  {
    assert ([item] + rest)[1..] == rest;
  }

  lemma {:induction false} ValueSays(x: Exec, t: TypeRef, nodes: seq<Selection>, path: Path, value: PyValue, f: Fact)
    requires Finite(x) && Together(OneShot(x), t, nodes)
    requires forall n <- nodes :: OkValue(OneShot(x), t, n, path, value)
    ensures OutSays(OneShot(x), CompleteValue(x, t, nodes, path, value), path, f)
            <==> SomeSays(OneShot(x), t, nodes, path, value, f)
    decreases Size(nodes, x.weight), 1, t, 1
  {
    CleanValue(x, t, nodes, path, value);
    assert OkValue(OneShot(x), t, nodes[0], path, value);
    match t
    case NonNull(u) =>
      forall n <- nodes ensures OkValue(OneShot(x), u, n, path, value) {
        assert OkValue(OneShot(x), t, n, path, value);
      }
      CleanValue(x, u, nodes, path, value);
      ValueSays(x, u, nodes, path, value, f);
      assert forall n :: SaysValue(OneShot(x), t, n, path, value, f) <==> SaysValue(OneShot(x), u, n, path, value, f);
    case ListType(u) =>
      if value.PyNull? {
        assert SaysValue(OneShot(x), t, nodes[0], path, value, f) <==> f == Fact(path, IsNull);
      } else {
        ListSays(x, u, nodes, path, value.items, f);
      }
    case NamedType(name) =>
      if value.PyNull? || IsLeaf(x.env, name) {
        assert SaysValue(OneShot(x), t, nodes[0], path, value, f)
               <==> Tells(CompleteValue(x, t, nodes, path, value).ending.json, path, f);
      } else {
        CompositeSays(x, name, nodes, path, value, f);
      }
  }

  /** Completing a list: the initial items now, a stream job for the rest. */
  lemma ListParts(x: Exec, u: TypeRef, nodes: seq<Selection>, path: Path, items: seq<PyValue>) returns (now: nat)
    requires Finite(x) && nodes != []
    ensures now <= |items|
    ensures CompleteValue(x, ListType(u), nodes, path, PyList(items))
            == WithStream(u, nodes, path, items, now, CompleteItems(x, u, nodes, path, items[..now], 0))
  {
    now := if x.incremental then Initial(x, nodes[0], items) else |items|;
  }

  function Remainder(u: TypeRef, nodes: seq<Selection>, path: Path, items: seq<PyValue>, now: nat): seq<StreamJob>
    requires now <= |items|
  {
    if now < |items| then [StreamJob(u, nodes, path, items[now..], now)] else []
  }

  function WithStream(u: TypeRef, nodes: seq<Selection>, path: Path, items: seq<PyValue>, now: nat, out: Out): Out
    requires now <= |items|
  {
    out.(streamed := Remainder(u, nodes, path, items, now) + out.streamed)
  }

  lemma RemainderSays(y: Exec, u: TypeRef, nodes: seq<Selection>, path: Path, items: seq<PyValue>, now: nat, f: Fact)
    requires Ready(y) && now <= |items|
    ensures JobsSay(y, [], Remainder(u, nodes, path, items, now), f)
            <==> ItemsSay(y, u, nodes, path, items[now..], now, f)
  {
    if now < |items| {
      var job := StreamJob(u, nodes, path, items[now..], now);
      assert StreamSays(y, job, f) <==> ItemsSay(y, u, nodes, path, items[now..], now, f);
      assert Remainder(u, nodes, path, items, now) == [job];
    }
  }

  lemma SomeSaysList(y: Exec, u: TypeRef, nodes: seq<Selection>, path: Path, items: seq<PyValue>, f: Fact)
    requires Ready(y) && nodes != []
    ensures SomeSays(y, ListType(u), nodes, path, PyList(items), f)
            <==> f == Fact(path, IsList) || ItemsSay(y, u, nodes, path, items, 0, f)
  {
    ItemsSayOne(y, u, nodes, path, items, 0, f);
    assert forall n :: SaysValue(y, ListType(u), n, path, PyList(items), f)
                       <==> f == Fact(path, IsList) || SaysItems(y, u, n, path, items, 0, f);
    assert nodes[0] in nodes;
  }

  lemma {:induction false} ListSays(x: Exec, u: TypeRef, nodes: seq<Selection>, path: Path, items: seq<PyValue>,
      f: Fact)
    requires Finite(x) && Together(OneShot(x), ListType(u), nodes)
    requires forall n <- nodes :: OkValue(OneShot(x), ListType(u), n, path, PyList(items))
    ensures OutSays(OneShot(x), CompleteValue(x, ListType(u), nodes, path, PyList(items)), path, f)
            <==> SomeSays(OneShot(x), ListType(u), nodes, path, PyList(items), f)
    decreases Size(nodes, x.weight), 1, u, 3 + |items|
  {
    var y := OneShot(x);
    var now := ListParts(x, u, nodes, path, items);
    forall n <- nodes ensures OkItems(y, u, n, path, items[..now], 0) {
      assert OkValue(y, ListType(u), n, path, PyList(items));
      OkItemsSplit(y, u, n, path, items, 0, now);
    }
    ItemsSaid(x, u, nodes, path, items[..now], 0, f);
    SaysWithStream(y, u, nodes, path, items, now, CompleteItems(x, u, nodes, path, items[..now], 0), f);
    SomeSaysList(y, u, nodes, path, items, f);
  }

  lemma SaysWithStream(y: Exec, u: TypeRef, nodes: seq<Selection>, path: Path, items: seq<PyValue>, now: nat, out: Out,
      f: Fact)
    requires Ready(y) && now <= |items| && out.ending.Data? && out.ending.json.JList?
    requires TellsItems(out.ending.json.items, path, 0, f) || JobsSay(y, out.deferred, out.streamed, f)
             <==> ItemsSay(y, u, nodes, path, items[..now], 0, f)
    ensures OutSays(y, WithStream(u, nodes, path, items, now, out), path, f)
            <==> f == Fact(path, IsList) || ItemsSay(y, u, nodes, path, items, 0, f)
  {
    ItemsSaySplit(y, u, nodes, path, items, 0, now, f);
    RemainderSays(y, u, nodes, path, items, now, f);
    JobsSayBoth(y, [], Remainder(u, nodes, path, items, now), out.deferred, out.streamed, f);
    assert [] + out.deferred == out.deferred;
  }

  lemma {:induction false} ItemsSaid(x: Exec, t: TypeRef, nodes: seq<Selection>, path: Path, items: seq<PyValue>,
      from: nat, f: Fact)
    requires Finite(x) && Together(OneShot(x), t, nodes) && ItemsOk(OneShot(x), t, nodes, path, items, from)
    ensures var out := CompleteItems(x, t, nodes, path, items, from);
            && out.ending.Data?
            && (TellsItems(out.ending.json.items, path, from, f) || JobsSay(OneShot(x), out.deferred, out.streamed, f)
                <==> ItemsSay(OneShot(x), t, nodes, path, items, from, f))
    decreases Size(nodes, x.weight), 1, t, 2 + |items|
  {
    if items != [] {
      ItemsOkOne(OneShot(x), t, nodes, path, items, from);
      CleanValue(x, t, nodes, path + [Index(from)], items[0]);
      ValueSays(x, t, nodes, path + [Index(from)], items[0], f);
      ItemsSaid(x, t, nodes, path, items[1..], from + 1, f);
      var h := CompleteValue(x, t, nodes, path + [Index(from)], items[0]);
      var r := CompleteItems(x, t, nodes, path, items[1..], from + 1);
      JobsSayBoth(OneShot(x), h.deferred, h.streamed, r.deferred, r.streamed, f);
      ItemsTell(h.ending.json, r.ending.json.items, path, from, f);
    }
  }

  lemma ItemsOkOne(y: Exec, t: TypeRef, nodes: seq<Selection>, path: Path, items: seq<PyValue>, from: nat)
    requires Ready(y) && items != [] && ItemsOk(y, t, nodes, path, items, from)
    ensures forall n <- nodes :: OkValue(y, t, n, path + [Index(from)], items[0])
    ensures ItemsOk(y, t, nodes, path, items[1..], from + 1)
  {
    forall n <- nodes
      ensures OkValue(y, t, n, path + [Index(from)], items[0]) && OkItems(y, t, n, path, items[1..], from + 1)
    {
      assert OkItems(y, t, n, path, items, from);
    }
  }

  lemma {:induction false} CompositeSays(x: Exec, name: string, nodes: seq<Selection>, path: Path, value: PyValue,
      f: Fact)
    requires Finite(x) && Together(OneShot(x), NamedType(name), nodes) && !value.PyNull? && !IsLeaf(x.env, name)
    requires forall n <- nodes :: OkValue(OneShot(x), NamedType(name), n, path, value)
    ensures OutSays(OneShot(x), CompleteValue(x, NamedType(name), nodes, path, value), path, f)
            <==> SomeSays(OneShot(x), NamedType(name), nodes, path, value, f)
    decreases Size(nodes, x.weight), 1, NamedType(name), 0
  {
    var y := OneShot(x);
    var objectType := RuntimeName(x, name, nodes, path, value);
    var w := SubWalk(x, objectType, nodes);
    ObjectParts(x, name, objectType, nodes, path, value);
    ObjectSays(x, name, objectType, value, nodes, path, f);
    WithDeferredSays(y, objectType, value, path, w.deferred,
                     ExecuteFields(x, objectType, value, w.nodes, Keys(w.nodes), path, false), f);
    SomeSaysObject(y, name, objectType, nodes, path, value, f);
  }

  lemma WithDeferredSays(y: Exec, objectType: string, value: PyValue, path: Path, sets: seq<seq<Selection>>, out: Out,
      f: Fact)
    requires Ready(y) && out.ending.Data? && out.ending.json.JObject?
    ensures OutSays(y, WithDeferred(objectType, value, path, sets, out), path, f)
            <==> EntriesSay(y, objectType, value, path, sets, out, f)
  {
  }

  lemma SomeSaysObject(y: Exec, name: string, objectType: string, nodes: seq<Selection>, path: Path, value: PyValue,
      f: Fact)
    requires Ready(y) && nodes != [] && !value.PyNull? && !IsLeaf(y.env, name) && IsComposite(y.env, name)
    requires ConcreteType(y, name, value) == Inferred(Some(objectType))
    ensures SomeSays(y, NamedType(name), nodes, path, value, f)
            <==> f == Fact(path, IsObject) || SaysNodes(y, objectType, value, SubWalk(y, objectType, nodes).nodes, path,
                 f)
  {
    SubWalkMember(y, objectType, nodes);
    assert forall n :: SaysValue(y, NamedType(name), n, path, value, f)
                       <==> f == Fact(path, IsObject) || SaysNodes(y, objectType, value, ChildFields(y, objectType, n),
                            path, f);
    assert nodes[0] in nodes;
  }

  /** An object, its entries and its jobs say what its merged sub-selections say. */
  lemma {:induction false} ObjectSays(x: Exec, name: string, objectType: string, value: PyValue, nodes: seq<Selection>,
      path: Path, f: Fact)
    requires Finite(x) && nodes != [] && Mergeable(OneShot(x), name, nodes) && CanBe(x.env, name, objectType)
    requires ChildrenOk(OneShot(x), objectType, value, nodes, path)
    ensures var w := SubWalk(x, objectType, nodes);
            && KeysOf(Keys(w.nodes), w.nodes)
            && var out := ExecuteFields(x, objectType, value, w.nodes, Keys(w.nodes), path, false);
            && out.ending.Data?
            && (EntriesSay(OneShot(x), objectType, value, path, w.deferred, out, f)
                <==> f == Fact(path, IsObject)
                     || SaysNodes(OneShot(x), objectType, value, SubWalk(OneShot(x), objectType, nodes).nodes, path, f))
    decreases Size(nodes, x.weight), 0
  {
    var w := SubWalk(x, objectType, nodes);
    SubWalkSize(x, objectType, nodes);
    CleanObject(x, name, objectType, value, nodes, path);
    WholeFieldsSay(x, objectType, value, w.nodes, path, false, f);
    EntriesSayParts(OneShot(x), objectType, value, path, w.deferred,
                    ExecuteFields(x, objectType, value, w.nodes, Keys(w.nodes), path, false), f);
    PartsSay(x, objectType, value, nodes, path, f);
  }

  /** An object with these entries, or its jobs, the deferred fragments' included, say the fact. */
  predicate EntriesSay(y: Exec, objectType: string, value: PyValue, path: Path, sets: seq<seq<Selection>>, out: Out,
      f: Fact)
    requires Ready(y) && out.ending.Data? && out.ending.json.JObject?
  {
    || f == Fact(path, IsObject)
    || TellsEntries(out.ending.json.entries, path, f)
    || JobsSay(y, DeferJobs(objectType, value, path, sets) + out.deferred, out.streamed, f)
  }

  lemma EntriesSayParts(y: Exec, objectType: string, value: PyValue, path: Path, sets: seq<seq<Selection>>, out: Out,
      f: Fact)
    requires Ready(y) && out.ending.Data? && out.ending.json.JObject?
    ensures EntriesSay(y, objectType, value, path, sets, out, f)
            <==> || f == Fact(path, IsObject)
                 || TellsEntries(out.ending.json.entries, path, f)
                 || JobsSay(y, DeferJobs(objectType, value, path, sets), [], f)
                 || JobsSay(y, out.deferred, out.streamed, f)
  {
    JobsSayBoth(y, DeferJobs(objectType, value, path, sets), [], out.deferred, out.streamed, f);
    assert [] + out.streamed == out.streamed;
  }

  lemma {:induction false} WholeFieldsSay(x: Exec, objectType: string, source: PyValue, nodes: seq<Selection>,
      path: Path, serial: bool, f: Fact)
    requires Finite(x) && Consistent(OneShot(x), objectType, nodes)
             && OkNodes(OneShot(x), objectType, source, nodes, path)
    ensures KeysOf(Keys(nodes), nodes)
    ensures var out := ExecuteFields(x, objectType, source, nodes, Keys(nodes), path, serial);
            && out.ending.Data?
            && (TellsEntries(out.ending.json.entries, path, f) || JobsSay(OneShot(x), out.deferred, out.streamed, f)
                <==> SaysNodes(OneShot(x), objectType, source, nodes, path, f))
    decreases Size(nodes, x.weight), 4
  {
    AllKeys(nodes);
    KeysExact(nodes);
    FieldsSay(x, objectType, source, nodes, Keys(nodes), path, serial, f);
  }

  /** The collected nodes and the deferred fragments say what the merged nodes say. */
  lemma PartsSay(x: Exec, objectType: string, value: PyValue, nodes: seq<Selection>, path: Path, f: Fact)
    requires Finite(x)
    ensures var y := OneShot(x);
            var w := SubWalk(x, objectType, nodes);
            f == Fact(path, IsObject) || SaysNodes(y, objectType, value, SubWalk(y, objectType, nodes).nodes, path, f)
            <==> f == Fact(path, IsObject) || SaysNodes(y, objectType, value, w.nodes, path, f)
                 || JobsSay(y, DeferJobs(objectType, value, path, w.deferred), [], f)
  {
    var y := OneShot(x);
    var w := SubWalk(x, objectType, nodes);
    var all := SubWalk(y, objectType, nodes).nodes;
    var jobs := DeferJobs(objectType, value, path, w.deferred);
    forall m ensures m in all <==> (m in w.nodes || exists d <- w.deferred ::
      m in Walk(x.env, objectType, d, {}, false).nodes) {
      SubWalkParts(x, objectType, nodes, m);
    }
    JobsOfSets(y, objectType, value, path, w.deferred, f);
  }

  lemma JobsOfSets(y: Exec, objectType: string, value: PyValue, path: Path, sets: seq<seq<Selection>>, f: Fact)
    requires Ready(y)
    ensures f == Fact(path, IsObject) || JobsSay(y, DeferJobs(objectType, value, path, sets), [], f)
            <==> f == Fact(path, IsObject) || exists d <- sets ::
                 SaysNodes(y, objectType, value, Walk(y.env, objectType, d, {}, false).nodes, path, f)
  {
    var jobs := DeferJobs(objectType, value, path, sets);
    forall i | 0 <= i < |sets|
      ensures DeferSays(y, jobs[i], f)
              <==> f == Fact(path, IsObject) || SaysNodes(y, objectType, value,
                   Walk(y.env, objectType, sets[i], {}, false).nodes, path, f)
    {}
    if d :| d in sets && SaysNodes(y, objectType, value, Walk(y.env, objectType, d, {}, false).nodes, path, f) {
      var i :| 0 <= i < |sets| && sets[i] == d;
      assert jobs[i] in jobs;
    }
    if j :| j in jobs && DeferSays(y, j, f) {
      assert j.selections in sets;
    }
  }

  // ----- a one-shot run without errors is free of errors everywhere -----------------------------

  lemma {:induction false} FieldWasOk(y: Exec, objectType: string, source: PyValue, nodes: seq<Selection>, path: Path)
    requires Ready(y) && Sound(y) && FieldTogether(y, objectType, nodes)
    requires ExecuteField(y, objectType, source, nodes, path).errors == []
    ensures forall n <- nodes :: OkField(y, objectType, source, n, path)
    decreases Size(nodes, y.weight), 2
  {
    var node := nodes[0];
    assert Alike(node, node);
    assert forall n <- nodes :: Alike(node, n);
    if node.name != "__typename" && node.name in FieldTypes(y.env, objectType) {
      var t := FieldTypes(y.env, objectType)[node.name];
      var resolved := y.world.resolve(objectType, node.name, ArgumentsMap(node.arguments), source, path);
      assert resolved.Returned?;
      ValueWasOk(y, t, nodes, path, resolved.value);
    }
  }

  lemma {:induction false} FieldsWereOk(y: Exec, objectType: string, source: PyValue, nodes: seq<Selection>,
                      keys: seq<string>, path: Path, serial: bool)
    requires Ready(y) && Sound(y) && KeysOf(keys, nodes) && Consistent(y, objectType, nodes)
    requires ExecuteFields(y, objectType, source, nodes, keys, path, serial).errors == []
    ensures forall m <- nodes | ResponseKey(m) in keys ::
            OkField(y, objectType, source, m, path + [Key(ResponseKey(m))])
    decreases Size(nodes, y.weight), 3, |keys|
  {
    if keys != [] {
      var key := keys[0];
      SizeUnder(nodes, key, y.weight);
      GroupTogether(y, objectType, nodes, key);
      UnderExact(nodes, key);
      FieldLeavesError(y, objectType, source, Under(nodes, key), path + [Key(key)]);
      FieldWasOk(y, objectType, source, Under(nodes, key), path + [Key(key)]);
      FieldsWereOk(y, objectType, source, nodes, keys[1..], path, serial);
    }
  }

  lemma {:induction false} ValueWasOk(y: Exec, t: TypeRef, nodes: seq<Selection>, path: Path, value: PyValue)
    requires Ready(y) && Sound(y) && Together(y, t, nodes) && IsOutput(y.env, t)
    requires var out := CompleteValue(y, t, nodes, path, value); out.errors == [] && !out.ending.Crash?
    ensures forall n <- nodes :: OkValue(y, t, n, path, value)
    decreases Size(nodes, y.weight), 1, t, 1
  {
    match t
    case NonNull(u) =>
      Stripped(y, t, nodes, path, value);
      StripNotNonNull(t);
      ValueWasOk(y, u, nodes, path, value);
    case ListType(u) =>
      if value.PyList? {
        assert value.items[..|value.items|] == value.items;
        ItemsWereOk(y, u, nodes, path, value.items, 0);
      }
    case NamedType(name) => if !value.PyNull? && !IsLeaf(y.env, name) { ObjectWasOk(y, name, nodes, path, value); }
  }

  lemma {:induction false} ObjectWasOk(y: Exec, name: string, nodes: seq<Selection>, path: Path, value: PyValue)
    requires Ready(y) && Sound(y) && Together(y, NamedType(name), nodes) && !value.PyNull? && !IsLeaf(y.env, name)
             && IsComposite(y.env, name)
    requires var out := CompleteValue(y, NamedType(name), nodes, path, value); out.errors == [] && !out.ending.Crash?
    ensures forall n <- nodes :: OkValue(y, NamedType(name), n, path, value)
    decreases Size(nodes, y.weight), 1, NamedType(name), 0
  {
    var objectType := ConcreteType(y, name, value).name.value;
    var all := SubWalk(y, objectType, nodes);
    ObjectParts(y, name, objectType, nodes, path, value);
    SubWalkSize(y, objectType, nodes);
    KeysExact(all.nodes);
    FieldsWereOk(y, objectType, value, all.nodes, Keys(all.nodes), path, false);
    SubWalkMember(y, objectType, nodes);
    assert forall n <- nodes :: OkNodes(y, objectType, value, ChildFields(y, objectType, n), path);
  }

  lemma {:induction false} ItemsWereOk(y: Exec, t: TypeRef, nodes: seq<Selection>, path: Path, items: seq<PyValue>,
      from: nat)
    requires Ready(y) && Sound(y) && Together(y, t, nodes) && IsOutput(y.env, t)
    requires var out := CompleteItems(y, t, nodes, path, items, from); out.errors == [] && !out.ending.Crash?
    ensures forall n <- nodes :: OkItems(y, t, n, path, items, from)
    decreases Size(nodes, y.weight), 1, t, 2 + |items|
  {
    if items != [] {
      ValueWasOk(y, t, nodes, path + [Index(from)], items[0]);
      ItemsWereOk(y, t, nodes, path, items[1..], from + 1);
    }
  }
}
