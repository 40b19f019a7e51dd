/** What a selection says about a response, independent of grouping, deferral and streaming: the facts
    each field node contributes, and when they are free of errors. */
module Gist {
  import opened Ast
  import opened Arguments
  import opened CollectFields
  import opened Executor
  import opened NullPropagation

  // ----- facts ---------------------------------------------------------------------------

  datatype Mark = IsNull | IsAtom(id: int) | IsName(name: string) | IsList | IsObject

  /** At this response path stands this kind of value; leaves come with their content. */
  datatype Fact = Fact(path: Path, mark: Mark)

  function MarkOf(json: Json): Mark {
    match json
    case JNull => IsNull
    case JAtom(id) => IsAtom(id)
    case JName(name) => IsName(name)
    case JList(_) => IsList
    case JObject(_) => IsObject
  }

  /** Data placed at `path` tells the fact. */
  predicate Tells(json: Json, path: Path, f: Fact) {
    || f == Fact(path, MarkOf(json))
    || (json.JList? && TellsItems(json.items, path, 0, f))
    || (json.JObject? && TellsEntries(json.entries, path, f))
  }

  predicate TellsItems(items: seq<Json>, path: Path, from: nat, f: Fact) {
    items != [] && (Tells(items[0], path + [Index(from)], f) || TellsItems(items[1..], path, from + 1, f))
  }

  predicate TellsEntries(entries: seq<Entry>, path: Path, f: Fact) {
    entries != [] && (Tells(entries[0].value, path + [Key(entries[0].key)], f) || TellsEntries(entries[1..], path, f))
  }

  // ----- what one field node says ------------------------------------------------------------

  function OneShot(x: Exec): Exec { x.(incremental := false) }

  lemma {:induction false} SizeMember(ss: seq<Selection>, s: Selection, weight: map<string, nat>)
    requires s in ss
    ensures SizeOne(s, weight) <= Size(ss, weight)
  {
    if ss[0] != s { SizeMember(ss[1..], s, weight); }
  }

  /** The fields `node` selects on an object of type `objectType`. */
  function ChildFields(y: Exec, objectType: string, node: Selection): (r: seq<Selection>)
    requires Ready(y)
    ensures forall m <- r :: m.Field? && SizeOne(m, y.weight) < SizeOne(node, y.weight)
  {
    var r := NodeWalk(y, objectType, node).nodes;
    if node.Field? && node.selectionSet.SelectionSet? then
      WalkSize(y, objectType, node.selectionSet.selections, {});
      assert forall m <- r :: SizeOne(m, y.weight) < SizeOne(node, y.weight) by {
        forall m <- r ensures SizeOne(m, y.weight) <= Size(r, y.weight) { SizeMember(r, m, y.weight); }
      }
      r
    else r
  }

  predicate SaysField(y: Exec, objectType: string, source: PyValue, node: Selection, path: Path, f: Fact)
    requires Ready(y)
    decreases SizeOne(node, y.weight), 1
  {
    if !node.Field? then f == Fact(path, IsNull)
    else if node.name == "__typename" then f == Fact(path, IsName(objectType))
    else if node.name !in FieldTypes(y.env, objectType) then f == Fact(path, IsNull)
    else
      match y.world.resolve(objectType, node.name, ArgumentsMap(node.arguments), source, path)
      case Raised(_) => false
      case Returned(value) => SaysValue(y, FieldTypes(y.env, objectType)[node.name], node, path, value, f)
  }

  predicate SaysValue(y: Exec, t: TypeRef, node: Selection, path: Path, value: PyValue, f: Fact)
    requires Ready(y)
    decreases SizeOne(node, y.weight), 0, t, 0
  {
    match t
    case NonNull(u) => SaysValue(y, u, node, path, value, f)
    case ListType(u) =>
      if value.PyList? then f == Fact(path, IsList) || SaysItems(y, u, node, path, value.items, 0, f)
      else f == Fact(path, IsNull)
    case NamedType(name) =>
      if value.PyNull? then f == Fact(path, IsNull)
      else if IsLeaf(y.env, name) then
        Emits(y.world.serialize(name, value)) && f == Fact(path, IsAtom(y.world.serialize(name, value).atom.value))
      else if IsComposite(y.env, name) && Infers(ConcreteType(y, name, value)) then
        var objectType := ConcreteType(y, name, value).name.value;
        f == Fact(path, IsObject) ||
        exists m <- ChildFields(y, objectType, node) ::
          SaysField(y, objectType, value, m, path + [Key(ResponseKey(m))], f)
      else f == Fact(path, IsNull)
  }

  predicate SaysItems(y: Exec, t: TypeRef, node: Selection, path: Path, items: seq<PyValue>, from: nat, f: Fact)
    requires Ready(y)
    decreases SizeOne(node, y.weight), 0, t, 1 + |items|
  {
    items != [] &&
    (SaysValue(y, t, node, path + [Index(from)], items[0], f) || SaysItems(y, t, node, path, items[1..], from + 1, f))
  }

  // ----- when a field node is free of errors -----------------------------------------------------

  predicate OkField(y: Exec, objectType: string, source: PyValue, node: Selection, path: Path)
    requires Ready(y)
    decreases SizeOne(node, y.weight), 1
  {
    node.Field? && (node.name == "__typename" || node.name !in FieldTypes(y.env, objectType) ||
    match y.world.resolve(objectType, node.name, ArgumentsMap(node.arguments), source, path)
    case Raised(_) => false
    case Returned(value) => OkValue(y, FieldTypes(y.env, objectType)[node.name], node, path, value))
  }

  predicate OkValue(y: Exec, t: TypeRef, node: Selection, path: Path, value: PyValue)
    requires Ready(y)
    decreases SizeOne(node, y.weight), 0, t, 0
  {
    match t
    case NonNull(u) => !value.PyNull? && OkValue(y, u, node, path, value)
    case ListType(u) => value.PyNull? || (value.PyList? && OkItems(y, u, node, path, value.items, 0))
    case NamedType(name) =>
      || value.PyNull?
      || if IsLeaf(y.env, name) then Emits(y.world.serialize(name, value))
         else
           && IsComposite(y.env, name)
           && Infers(ConcreteType(y, name, value))
           && var objectType := ConcreteType(y, name, value).name.value;
              forall m <- ChildFields(y, objectType, node) ::
                OkField(y, objectType, value, m, path + [Key(ResponseKey(m))])
  }

  predicate OkItems(y: Exec, t: TypeRef, node: Selection, path: Path, items: seq<PyValue>, from: nat)
    requires Ready(y)
    decreases SizeOne(node, y.weight), 0, t, 1 + |items|
  {
    items == [] ||
    (OkValue(y, t, node, path + [Index(from)], items[0]) && OkItems(y, t, node, path, items[1..], from + 1))
  }

  // ----- groups whose nodes agree ------------------------------------------------------------------

  /** The same field with the same arguments. */
  predicate Alike(n: Selection, m: Selection) {
    n.Field? && m.Field? && n.name == m.name && ArgumentsMap(n.arguments) == ArgumentsMap(m.arguments)
  }

  /** The type a reference is about, wrappers stripped. */
  function NamedOf(t: TypeRef): string {
    match t
    case NamedType(name) => name
    case ListType(u) => NamedOf(u)
    case NonNull(u) => NamedOf(u)
  }

  /** The executor completes objects below this node's field, of a type that can be `TypeBelow`. */
  predicate Descends(env: Env, objectType: string, node: Selection) {
    node.Field? && node.name != "__typename" && node.name in FieldTypes(env, objectType)
    && IsComposite(env, NamedOf(FieldTypes(env, objectType)[node.name]))
  }

  function TypeBelow(env: Env, objectType: string, node: Selection): string
    requires Descends(env, objectType, node)
  {
    NamedOf(FieldTypes(env, objectType)[node.name])
  }

  /** Object types the executor may find behind a composite type; an object type is only itself. */
  predicate CanBe(env: Env, name: string, objectType: string) {
    name in env.types && env.types[name].ObjectType? ==> objectType == name
  }

  /** Nodes collected on an object under one response key are alike, and so are those their merged
      sub-selections yield wherever the executor descends, at every depth. */
  ghost predicate Consistent(y: Exec, objectType: string, nodes: seq<Selection>)
    requires Ready(y)
    decreases Size(nodes, y.weight), 1
  {
    && (forall n <- nodes, m <- nodes :: ResponseKey(n) == ResponseKey(m) ==> Alike(n, m))
    && forall key | Under(nodes, key) != [] && Descends(y.env, objectType, Under(nodes, key)[0]) ::
         (SizeUnder(nodes, key, y.weight); Mergeable(y, TypeBelow(y.env, objectType, Under(nodes, key)[0]),
             Under(nodes, key)))
  }

  ghost predicate Mergeable(y: Exec, name: string, nodes: seq<Selection>)
    requires Ready(y) && nodes != []
    decreases Size(nodes, y.weight), 0
  {
    forall objectType: string | CanBe(y.env, name, objectType) ::
      (SubWalkSize(y, objectType, nodes); Consistent(y, objectType, SubWalk(y, objectType, nodes).nodes))
  }

  lemma {:induction false} SubWalkMember(x: Exec, objectType: string, nodes: seq<Selection>)
    ensures forall m ::
              m in SubWalk(x, objectType, nodes).nodes
              <==> exists n <- nodes :: m in NodeWalk(x, objectType, n).nodes
    ensures forall d ::
              d in SubWalk(x, objectType, nodes).deferred
              <==> exists n <- nodes :: d in NodeWalk(x, objectType, n).deferred
  {
    if nodes != [] {
      SubWalkMember(x, objectType, nodes[1..]);
      assert forall n <- nodes :: n == nodes[0] || n in nodes[1..];
    }
  }

  lemma {:induction false} ConsistentSubset(y: Exec, objectType: string, some: seq<Selection>, all: seq<Selection>)
    requires Ready(y) && Consistent(y, objectType, all) && forall n <- some :: n in all
    ensures Consistent(y, objectType, some)
    decreases Size(all, y.weight), 1
  {
    forall key | Under(some, key) != [] && Descends(y.env, objectType, Under(some, key)[0])
      ensures Mergeable(y, TypeBelow(y.env, objectType, Under(some, key)[0]), Under(some, key))
    {
      UnderExact(some, key);
      UnderExact(all, key);
      assert Under(some, key)[0] in Under(all, key) && Under(all, key)[0] in all;
      assert Alike(Under(some, key)[0], Under(all, key)[0]);
      SizeUnder(all, key, y.weight);
      MergeableSubset(y, TypeBelow(y.env, objectType, Under(some, key)[0]), Under(some, key), Under(all, key));
    }
  }

  lemma {:induction false} MergeableSubset(y: Exec, name: string, some: seq<Selection>, all: seq<Selection>)
    requires Ready(y) && some != [] && all != [] && Mergeable(y, name, all) && forall n <- some :: n in all
    ensures Mergeable(y, name, some)
    decreases Size(all, y.weight), 0
  {
    forall objectType: string | CanBe(y.env, name, objectType)
      ensures Consistent(y, objectType, SubWalk(y, objectType, some).nodes) {
      SubWalkMember(y, objectType, some);
      SubWalkMember(y, objectType, all);
      SubWalkSize(y, objectType, all);
      ConsistentSubset(y, objectType, SubWalk(y, objectType, some).nodes, SubWalk(y, objectType, all).nodes);
    }
  }

  /** What an incremental walk collects or sets aside is what the plain walk collects. */
  lemma WalkSplits(x: Exec, objectType: string, ss: seq<Selection>, m: Selection)
    requires x.incremental
    ensures var w := Walk(x.env, objectType, ss, {}, true);
            m in Walk(x.env, objectType, ss, {}, false).nodes
            <==> (m in w.nodes || exists d <- w.deferred :: m in Walk(x.env, objectType, d, {}, false).nodes)
  {
    var w := Walk(x.env, objectType, ss, {}, true);
    CollectsExactlyReachable(x.env, objectType, ss, m);
    DeferralPartitionsReachable(x.env, objectType, ss, m);
    forall d <- w.deferred ensures m in Walk(x.env, objectType, d, {}, false).nodes
      <==> Reaches(x.env, objectType, d, m) {
      CollectsExactlyReachable(x.env, objectType, d, m);
    }
  }
}
