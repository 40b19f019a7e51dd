/** What the data at each position is: the atom its leaf emits, a list of its items, an object with the
    fields selected there in their order; whatever else goes wrong elsewhere in the run. */
module Shapes {
  import opened Ast
  import opened CollectFields
  import opened Executor
  import opened NullPropagation
  import opened Selected

  // ----- runtime types and the fields selected below ---------------------------------------------

  /** `t` is the object type of `value`: the declared type itself, or what is inferred for an abstract one. */
  predicate RuntimeIs(x: Exec, name: string, value: PyValue, t: string) {
    && t in x.env.types && x.env.types[t].ObjectType?
    && (t == name
        || (name in x.env.types && !x.env.types[name].ObjectType?
            && x.world.runtimeType(name, value) == Inferred(Some(t))))
  }

  lemma RuntimeExactly(x: Exec, name: string, value: PyValue, t: string)
    requires IsComposite(x.env, name)
    ensures ConcreteType(x, name, value) == Inferred(Some(t))
            <==> if x.env.types[name].ObjectType? then t == name else RuntimeIs(x, name, value, t)
  {
  }

  /** The selections of some of the nodes select `n` on the type. */
  ghost predicate SelectedBelow(x: Exec, objectType: string, nodes: seq<Selection>, n: Selection) {
    exists m <- nodes :: m.Field? && m.selectionSet.SelectionSet?
      && SelectsNow(x.env, objectType, m.selectionSet.selections, n, x.incremental)
  }

  lemma {:induction false} BelowExactly(x: Exec, objectType: string, nodes: seq<Selection>, n: Selection)
    ensures n in SubWalk(x, objectType, nodes).nodes <==> SelectedBelow(x, objectType, nodes, n)
  {
    if nodes != [] {
      var m := nodes[0];
      BelowExactly(x, objectType, nodes[1..], n);
      if m.Field? && m.selectionSet.SelectionSet? {
        CollectedExactly(x.env, objectType, m.selectionSet.selections, n, x.incremental);
      }
    }
  }

  /** The fields below, every fragment written out, node after node. */
  function WrittenBelow(x: Exec, objectType: string, nodes: seq<Selection>): seq<Selection>
    requires Finite(x)
  {
    if nodes == [] then []
    else
      var m := nodes[0];
      (if m.Field? && m.selectionSet.SelectionSet? then
         WrittenOut(x.env, x.weight, objectType, m.selectionSet.selections, x.incremental)
       else [])
      + WrittenBelow(x, objectType, nodes[1..])
  }

  lemma {:induction false} BelowInOrder(x: Exec, objectType: string, nodes: seq<Selection>, before: seq<Selection>)
    requires Finite(x)
    ensures Firsts(before + SubWalk(x, objectType, nodes).nodes) == Firsts(before + WrittenBelow(x, objectType, nodes))
  {
    if nodes != [] {
      var m := nodes[0];
      var h, t := NodeWalk(x, objectType, m).nodes, SubWalk(x, objectType, nodes[1..]).nodes;
      var here := if m.Field? && m.selectionSet.SelectionSet? then
          WrittenOut(x.env, x.weight, objectType, m.selectionSet.selections, x.incremental) else [];
      if m.Field? && m.selectionSet.SelectionSet? {
        WalkOrder(x.env, x.weight, objectType, m.selectionSet.selections, {}, before, x.incremental);
      }
      BelowInOrder(x, objectType, nodes[1..], before + h);
      FirstsInTurn(before, h, t, here, WrittenBelow(x, objectType, nodes[1..]));
    }
  }

  // ----- response keys ---------------------------------------------------------------------------------------

  /** The field stands in the response under `key`: its alias, or its name when it has none. */
  predicate GoesBy(n: Selection, key: string) {
    n.Field? && if n.alias.Some? then n.alias == Some(key) else n.name == key
  }

  /** A key has a group exactly when some field goes by it, and the group is of exactly the fields that do. */
  lemma KeysExactly(nodes: seq<Selection>, key: string, n: Selection)
    requires forall m <- nodes :: m.Field?
    ensures key in Keys(nodes) <==> exists m <- nodes :: GoesBy(m, key)
    ensures n in Under(nodes, key) <==> n in nodes && GoesBy(n, key)
  {
    KeysExact(nodes);
    UnderExact(nodes, key);
    assert forall m <- nodes :: GoesBy(m, key) <==> ResponseKey(m) == key;
  }

  // ----- the shape of data ------------------------------------------------------------------------------

  function EntryKeys(entries: seq<Entry>): seq<string> {
    seq(|entries|, i requires 0 <= i < |entries| => entries[i].key)
  }

  /** What data that is not null is at base type `b`. */
  predicate HasShape(x: Exec, b: TypeRef, nodes: seq<Selection>, value: PyValue, json: Json) {
    match b
    case NonNull(_) => false
    case ListType(_) => value.PyList? && json.JList? && |json.items| == |Shown(x, nodes, value.items)|
    case NamedType(name) =>
      if IsLeaf(x.env, name) then json.JAtom? && x.world.serialize(name, value) == Emitted(Some(json.id))
      else
        && json.JObject? && IsComposite(x.env, name) && ConcreteType(x, name, value).Inferred?
        && ConcreteType(x, name, value).name.Some?
        && EntryKeys(json.entries) == Keys(SubWalk(x, ConcreteType(x, name, value).name.value, nodes).nodes)
  }

  /** Fields end in an object with one entry per key, in order. */
  lemma ObjectKeys(x: Exec, objectType: string, source: PyValue, nodes: seq<Selection>, path: Path, serial: bool)
    requires Finite(x) && KeysOf(Keys(nodes), nodes)
    ensures var out := ExecuteFields(x, objectType, source, nodes, Keys(nodes), path, serial);
            out.ending.Data? ==> EntryKeys(out.ending.json.entries) == Keys(nodes)
  {
    FieldsJoin(x, objectType, source, nodes, Keys(nodes), path, serial);
    JoinedFields(Keys(nodes), FieldOuts(x, objectType, source, nodes, Keys(nodes), path), serial);
  }

  lemma BaseShape(x: Exec, b: TypeRef, nodes: seq<Selection>, path: Path, value: PyValue)
    requires Finite(x) && nodes != [] && !b.NonNull?
    ensures var out := CompleteValue(x, b, nodes, path, value);
            out.ending.Data? && !out.ending.json.JNull? ==> HasShape(x, b, nodes, value, out.ending.json)
  {
    match b
    case ListType(u) =>
      if value.PyList? {
        ListJoins(x, u, nodes, path, value.items);
        JoinedItems(ItemOuts(x, u, nodes, path, Shown(x, nodes, value.items), 0));
      }
    case NamedType(name) =>
      if !value.PyNull? && !IsLeaf(x.env, name) && IsComposite(x.env, name) && Infers(ConcreteType(x, name, value)) {
        var objectType := ConcreteType(x, name, value).name.value;
        var sub := SubWalk(x, objectType, nodes).nodes;
        AllKeys(sub);
        ObjectKeys(x, objectType, value, sub, path, false);
      }
  }

  /** A position's data is null, or has the shape of its value at its type. */
  lemma ShapeExactly(x: Exec, p: Position)
    requires Finite(x) && p.nodes != []
    ensures Outcome(x, p).ending.Data? && !Outcome(x, p).ending.json.JNull? ==>
              p.raw.Returned? && HasShape(x, Strip(p.t), p.nodes, p.raw.value, Outcome(x, p).ending.json)
  {
    if p.raw.Returned? {
      StripNotNonNull(p.t);
      BaseShape(x, Strip(p.t), p.nodes, p.path, p.raw.value);
      if p.t.NonNull? { Stripped(x, p.t, p.nodes, p.path, p.raw.value); }
    }
  }

  /** Everywhere in a response: data at a typed position is null, or has the shape of what its resolver, or the
      list it stands in, gave for it. */
  lemma ResponseShapes(x: Exec, rootType: string, rootValue: PyValue, ss: seq<Selection>, mutation: bool, path: Path)
    requires Finite(x) && OperationPosition(x, rootType, rootValue, ss, path).Some?
    requires DataAt(Response(x, rootType, rootValue, ss, mutation), path).Some?
    ensures var p := OperationPosition(x, rootType, rootValue, ss, path).value;
            var json := DataAt(Response(x, rootType, rootValue, ss, mutation), path).value;
            json.JNull? || (p.raw.Returned? && HasShape(x, Strip(p.t), p.nodes, p.raw.value, json))
  {
    ResponseIsLocal(x, rootType, rootValue, ss, mutation, path);
    ShapeExactly(x, OperationPosition(x, rootType, rootValue, ss, path).value);
  }

  // ----- entries without a typed position ----------------------------------------------------------------

  /** An object's entries that are no typed fields: its type's name, and null for a field the type does not have. */
  lemma UntypedEntries(x: Exec, objectType: string, source: PyValue, nodes: seq<Selection>, path: Path, serial: bool,
      key: string)
    requires Finite(x) && KeysOf(Keys(nodes), nodes) && key in Keys(nodes)
    requires ExecuteFields(x, objectType, source, nodes, Keys(nodes), path, serial).ending.Data?
    requires Under(nodes, key)[0].Field?
    ensures var name := Under(nodes, key)[0].name;
            var json := ExecuteFields(x, objectType, source, nodes, Keys(nodes), path, serial).ending.json;
            && (name == "__typename" ==> StepInto(json, Key(key)) == Some(JName(objectType)))
            && (name != "__typename" && name !in FieldTypes(x.env, objectType) ==>
                  StepInto(json, Key(key)) == Some(JNull))
  {
    ObjectDataIsLocal(x, objectType, source, nodes, path, serial, key);
  }

  /** The response itself is null, or an object with the fields selected at the root in their order. */
  lemma RootShape(x: Exec, rootType: string, rootValue: PyValue, ss: seq<Selection>, mutation: bool)
    requires Finite(x)
    ensures var json := Response(x, rootType, rootValue, ss, mutation);
            json.JNull?
            || (json.JObject? && EntryKeys(json.entries) == Keys(Walk(x.env, rootType, ss, {}, x.incremental).nodes))
  {
    var nodes := Walk(x.env, rootType, ss, {}, x.incremental).nodes;
    AllKeys(nodes);
    ObjectKeys(x, rootType, rootValue, nodes, [], mutation);
  }
}
