/** What the payloads of incremental delivery amount to, read as a map from response paths to leaves: every
    path looks up in the one-shot response exactly what some payload places there. */
module Answer {
  import opened Ast
  import Arguments
  import opened CollectFields
  import opened Executor
  import opened NullPropagation
  import opened Gist
  import opened Incremental
  import opened Delivery

  // ----- response objects have one value per key ----------------------------------------------

  predicate DistinctKeys(entries: seq<Entry>) {
    forall i, j | 0 <= i < j < |entries| :: entries[i].key != entries[j].key
  }

  /** No object holds two values under one key, at any depth. */
  predicate WellKeyed(json: Json) {
    match json
    case JList(items) => forall j <- items :: WellKeyed(j)
    case JObject(entries) => DistinctKeys(entries) && forall e <- entries :: WellKeyed(e.value)
    case _ => true
  }

  predicate Keyed(out: Out) { out.ending.Data? ==> WellKeyed(out.ending.json) }

  lemma {:induction false} FieldKeyed(x: Exec, objectType: string, source: PyValue, nodes: seq<Selection>, path: Path)
    requires Finite(x) && nodes != []
    ensures Keyed(ExecuteField(x, objectType, source, nodes, path))
    decreases Size(nodes, x.weight), 2
  {
    var node := nodes[0];
    if node.Field? && node.name != "__typename" && node.name in FieldTypes(x.env, objectType) {
      var t := FieldTypes(x.env, objectType)[node.name];
      var resolved := x.world.resolve(objectType, node.name, Arguments.ArgumentsMap(node.arguments), source, path);
      if resolved.Returned? { ValueKeyed(x, t, nodes, path, resolved.value); }
    }
  }

  lemma {:induction false} FieldsKeyed(x: Exec, objectType: string, source: PyValue, nodes: seq<Selection>, path: Path,
      serial: bool)
    requires Finite(x) && KeysOf(Keys(nodes), nodes)
    ensures Keyed(ExecuteFields(x, objectType, source, nodes, Keys(nodes), path, serial))
    decreases Size(nodes, x.weight), 3
  {
    var keys := Keys(nodes);
    var outs := FieldOuts(x, objectType, source, nodes, keys, path);
    FieldsJoin(x, objectType, source, nodes, keys, path, serial);
    forall i | 0 <= i < |keys| ensures Keyed(outs[i]) {
      SizeUnder(nodes, keys[i], x.weight);
      FieldKeyed(x, objectType, source, Under(nodes, keys[i]), path + [Key(keys[i])]);
    }
    KeysExact(nodes);
    JoinedKeyed(keys, outs, serial);
  }

  lemma JoinedKeyed(keys: seq<string>, outs: seq<Out>, serial: bool)
    requires |keys| == |outs| && (forall o <- outs :: !o.ending.Crash?) && forall i | 0 <= i < |outs| :: Keyed(outs[i])
    requires forall i, j | 0 <= i < j < |keys| :: keys[i] != keys[j]
    ensures Keyed(JoinFields(keys, outs, serial))
  {
    JoinedFields(keys, outs, serial);
    var ending := JoinFields(keys, outs, serial).ending;
    if ending.Data? {
      forall e <- ending.json.entries ensures WellKeyed(e.value) {
        var i :| 0 <= i < |keys| && ending.json.entries[i] == e;
        assert Keyed(outs[i]);
      }
    }
  }

  lemma {:induction false} ValueKeyed(x: Exec, t: TypeRef, nodes: seq<Selection>, path: Path, value: PyValue)
    requires Finite(x) && nodes != []
    ensures Keyed(CompleteValue(x, t, nodes, path, value))
    decreases Size(nodes, x.weight), 1, t, 1
  {
    match t
    case NonNull(u) => ValueKeyed(x, u, nodes, path, value);
    case ListType(u) =>
      if value.PyList? {
        var now := ListParts(x, u, nodes, path, value.items);
        ItemsKeyed(x, u, nodes, path, value.items[..now], 0);
      }
    case NamedType(name) =>
      if !value.PyNull? && !IsLeaf(x.env, name) && IsComposite(x.env, name) && Infers(ConcreteType(x, name, value)) {
        var objectType := ConcreteType(x, name, value).name.value;
        var w := SubWalk(x, objectType, nodes);
        ObjectParts(x, name, objectType, nodes, path, value);
        SubWalkSize(x, objectType, nodes);
        FieldsKeyed(x, objectType, value, w.nodes, path, false);
      }
  }

  lemma {:induction false} ItemsKeyed(x: Exec, t: TypeRef, nodes: seq<Selection>, path: Path, items: seq<PyValue>,
      from: nat)
    requires Finite(x) && nodes != []
    ensures Keyed(CompleteItems(x, t, nodes, path, items, from))
    decreases Size(nodes, x.weight), 1, t, 2 + |items|
  {
    if items != [] {
      ValueKeyed(x, t, nodes, path + [Index(from)], items[0]);
      ItemsKeyed(x, t, nodes, path, items[1..], from + 1);
    }
  }

  // ----- telling a fact is looking it up -------------------------------------------------------

  /** `json`, placed at `base`, holds at the fact's path what the fact says. */
  predicate Holds(json: Json, base: Path, f: Fact) {
    && base <= f.path
    && var there := DataAt(json, f.path[|base|..]);
       there.Some? && MarkOf(there.value) == f.mark
  }

  lemma HoldsInside(json: Json, step: Step, inner: Json, base: Path, f: Fact)
    requires StepInto(json, step) == Some(inner)
    ensures Holds(inner, base + [step], f) <==> Holds(json, base, f) && |f.path| > |base| && f.path[|base|] == step
  {
    if base <= f.path && |f.path| > |base| && f.path[|base|] == step {
      assert f.path[|base|..][1..] == f.path[|base + [step]|..];
      assert base + [step] == f.path[..|base| + 1];
    }
  }

  lemma HoldsHere(json: Json, base: Path, f: Fact)
    ensures Holds(json, base, f) && |f.path| == |base| <==> f == Fact(base, MarkOf(json))
  {
    if base <= f.path && |f.path| == |base| { assert f.path == base && f.path[|base|..] == []; }
    if f == Fact(base, MarkOf(json)) { assert f.path[|base|..] == []; }
  }

  lemma {:induction false} ItemTells(items: seq<Json>, base: Path, from: nat, f: Fact)
    ensures TellsItems(items, base, from, f) <==> exists i | 0 <= i < |items| ::
            Tells(items[i], base + [Index(from + i)], f)
  {
    if items != [] {
      ItemTells(items[1..], base, from + 1, f);
      if i :| 0 <= i < |items| && Tells(items[i], base + [Index(from + i)], f) {
        if i > 0 { assert items[1..][i - 1] == items[i] && from + 1 + (i - 1) == from + i; }
      }
      if i :| 0 <= i < |items| - 1 && Tells(items[1..][i], base + [Index(from + 1 + i)], f) {
        assert items[1..][i] == items[i + 1] && from + 1 + i == from + (i + 1);
      }
      assert from + 0 == from;
    }
  }

  lemma {:induction false} EntryTells(entries: seq<Entry>, base: Path, f: Fact)
    ensures TellsEntries(entries, base, f) <==> exists e <- entries :: Tells(e.value, base + [Key(e.key)], f)
  {
    if entries != [] {
      EntryTells(entries[1..], base, f);
      assert forall e <- entries :: e == entries[0] || e in entries[1..];
    }
  }

  lemma FindsEntry(entries: seq<Entry>, e: Entry)
    requires DistinctKeys(entries) && e in entries
    ensures StepInto(JObject(entries), Key(e.key)) == Some(e.value)
  {
    var i :| 0 <= i < |entries| && entries[i] == e;
    FindAt(entries, i);
  }

  lemma {:induction false} FoundEntry(entries: seq<Entry>, key: string) returns (e: Entry)
    requires Find(entries, key).Some?
    ensures e in entries && e.key == key && Find(entries, key) == Some(e.value)
  {
    if entries[0].key == key { e := entries[0]; } else { e := FoundEntry(entries[1..], key); }
  }

  /** Data with one value per key tells a fact exactly when looking the path up gives it. */
  lemma {:induction false} TellsIsLookup(json: Json, base: Path, f: Fact)
    requires WellKeyed(json)
    ensures Tells(json, base, f) <==> Holds(json, base, f)
    decreases json
  {
    HoldsHere(json, base, f);
    match json
    case JList(items) =>
      forall i | 0 <= i < |items| ensures Tells(items[i], base + [Index(i)], f)
        <==> Holds(items[i], base + [Index(i)], f) {
        TellsIsLookup(items[i], base + [Index(i)], f);
      }
      ListLookup(items, base, f);
    case JObject(entries) =>
      forall e <- entries ensures Tells(e.value, base + [Key(e.key)], f) <==> Holds(e.value, base + [Key(e.key)], f) {
        TellsIsLookup(e.value, base + [Key(e.key)], f);
      }
      ObjectLookup(entries, base, f);
    case _ => LeafLookup(json, base, f);
  }

  lemma LeafLookup(json: Json, base: Path, f: Fact)
    requires !json.JList? && !json.JObject?
    ensures Holds(json, base, f) ==> |f.path| == |base|
  {
    assert forall step :: StepInto(json, step) == None;
  }

  lemma ListLookup(items: seq<Json>, base: Path, f: Fact)
    requires forall i | 0 <= i < |items| ::
               Tells(items[i], base + [Index(i)], f)
               <==> Holds(items[i], base + [Index(i)], f)
    ensures TellsItems(items, base, 0, f) <==> Holds(JList(items), base, f) && |f.path| > |base|
  {
    var json := JList(items);
    ItemTells(items, base, 0, f);
    forall i | 0 <= i < |items|
      ensures 0 + i == i && (Holds(items[i], base + [Index(i)], f)
                <==> Holds(json, base, f) && |f.path| > |base| && f.path[|base|] == Index(i))
    {
      HoldsInside(json, Index(i), items[i], base, f);
    }
    if Holds(json, base, f) && |f.path| > |base| {
      var step := f.path[|base|];
      assert f.path[|base|..][0] == step && StepInto(json, step).Some?;
      assert Tells(items[step.i], base + [Index(0 + step.i)], f);
    }
  }

  lemma ObjectLookup(entries: seq<Entry>, base: Path, f: Fact)
    requires DistinctKeys(entries)
    requires forall e <- entries :: Tells(e.value, base + [Key(e.key)], f) <==> Holds(e.value, base + [Key(e.key)], f)
    ensures TellsEntries(entries, base, f) <==> Holds(JObject(entries), base, f) && |f.path| > |base|
  {
    var json := JObject(entries);
    EntryTells(entries, base, f);
    forall e <- entries
      ensures Holds(e.value, base + [Key(e.key)], f)
              <==> Holds(json, base, f) && |f.path| > |base| && f.path[|base|] == Key(e.key)
    {
      FindsEntry(entries, e);
      HoldsInside(json, Key(e.key), e.value, base, f);
    }
    if Holds(json, base, f) && |f.path| > |base| {
      var step := f.path[|base|];
      assert f.path[|base|..][0] == step && StepInto(json, step).Some?;
      var e := FoundEntry(entries, step.key);
    }
  }

  // ----- the theorem -------------------------------------------------------------------------------

  /** What the one-shot response holds at the fact's path. */
  predicate Answers(y: Exec, rootType: string, rootValue: PyValue, ss: seq<Selection>, mutation: bool, f: Fact)
    requires Finite(y)
  {
    var there := DataAt(Response(y, rootType, rootValue, ss, mutation), f.path);
    there.Some? && MarkOf(there.value) == f.mark
  }

  lemma ResponseKeyed(x: Exec, rootType: string, rootValue: PyValue, ss: seq<Selection>, mutation: bool)
    requires Finite(x)
    ensures WellKeyed(Response(x, rootType, rootValue, ss, mutation))
  {
    var nodes := Walk(x.env, rootType, ss, {}, x.incremental).nodes;
    AllKeys(nodes);
    FieldsKeyed(x, rootType, rootValue, nodes, [], mutation);
  }

  /** Merging every payload at its path gives exactly the one-shot response's map from paths to leaves,
      lists and objects: nothing missing, nothing else, and so no two payloads contradict each other. */
  lemma PayloadsAreTheAnswer(x: Exec, rootType: string, rootValue: PyValue, ss: seq<Selection>, mutation: bool, f: Fact)
    requires Finite(x) && x.incremental && ErrorFree(OneShot(x), rootType, rootValue, ss, mutation)
    ensures AnyTells(RunIncremental(x, rootType, rootValue, ss, mutation), f)
            <==> Answers(OneShot(x), rootType, rootValue, ss, mutation, f)
  {
    IncrementalPreservesMeaning(x, rootType, rootValue, ss, mutation, f);
    ResponseKeyed(OneShot(x), rootType, rootValue, ss, mutation);
    TellsIsLookup(Response(OneShot(x), rootType, rootValue, ss, mutation), [], f);
    assert f.path[0..] == f.path;
  }

  /** However many payloads have arrived, they are a part of that answer. */
  lemma PrefixIsPartialAnswer(x: Exec, rootType: string, rootValue: PyValue, ss: seq<Selection>, mutation: bool, n: nat,
      f: Fact)
    requires Finite(x) && x.incremental && ErrorFree(OneShot(x), rootType, rootValue, ss, mutation)
    requires n <= |RunIncremental(x, rootType, rootValue, ss, mutation)|
    requires AnyTells(RunIncremental(x, rootType, rootValue, ss, mutation)[..n], f)
    ensures Answers(OneShot(x), rootType, rootValue, ss, mutation, f)
  {
    var ps := RunIncremental(x, rootType, rootValue, ss, mutation);
    var p :| p in ps[..n] && PayloadTells(p, f);
    assert p in ps;
    PayloadsAreTheAnswer(x, rootType, rootValue, ss, mutation, f);
  }

  /** And what they tell of one path never differs. */
  lemma PayloadsAgree(x: Exec, rootType: string, rootValue: PyValue, ss: seq<Selection>, mutation: bool, f: Fact,
      g: Fact)
    requires Finite(x) && x.incremental && ErrorFree(OneShot(x), rootType, rootValue, ss, mutation)
    requires AnyTells(RunIncremental(x, rootType, rootValue, ss, mutation), f)
    requires AnyTells(RunIncremental(x, rootType, rootValue, ss, mutation), g)
    ensures f.path == g.path ==> f == g
  {
    PayloadsAreTheAnswer(x, rootType, rootValue, ss, mutation, f);
    PayloadsAreTheAnswer(x, rootType, rootValue, ss, mutation, g);
  }
}
