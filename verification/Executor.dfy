/** The executor of fastql/execution/execute.py: field execution, value completion, null bubbling and
    the jobs incremental delivery leaves behind. */
module Executor {
  import opened Ast
  import opened Arguments
  import opened CollectFields

  // ----- response paths, values and data ----------------------------------------------

  datatype Step = Key(key: string) | Index(i: nat)

  type Path = seq<Step>

  /** A resolver's Python value: None, an iterable that is not a string, or anything else. */
  datatype PyValue = PyNull | PyAtom(id: int) | PyList(items: seq<PyValue>)

  datatype Entry = Entry(key: string, value: Json)

  /** Response data; dictionaries keep insertion order. */
  datatype Json =
    | JNull
    | JAtom(id: int)
    | JName(name: string)
    | JList(items: seq<Json>)
    | JObject(entries: seq<Entry>)

  datatype Cause = CannotReturnNull | ResolverFailed | LeafRefused | ExpectedList | NoRuntimeType | Unexpected

  datatype Error = Error(path: Path, cause: Cause)

  // ----- what lies outside the executor -------------------------------------------------

  /** A resolver call returns or raises; a raised GraphQL error may already carry a path. */
  datatype Resolved = Returned(value: PyValue) | Raised(preset: Option<Path>)

  /** A leaf serializer emits an atom or None, raises a GraphQL error, or raises anything else. */
  datatype Serialized = Emitted(atom: Option<int>) | Refused(preset: Option<Path>) | Crashed

  datatype Runtime = Inferred(name: Option<string>) | RuntimeCrashed

  /** Resolvers, leaf serializers and runtime type inference, as pure functions. */
  datatype World = World(
    resolve: (string, string, map<string, Repr>, PyValue, Path) -> Resolved,
    serialize: (string, PyValue) -> Serialized,
    runtimeType: (string, PyValue) -> Runtime)

  /** `weight` bounds the unfolded size of each fragment (see FragmentCycles: one exists exactly when
      fragments do not spread themselves). It only serves termination. */
  datatype Exec = Exec(env: Env, weight: map<string, nat>, world: World, incremental: bool)

  // ----- unfolded size ----------------------------------------------------------------------

  function Size(ss: seq<Selection>, weight: map<string, nat>): nat {
    if ss == [] then 0 else SizeOne(ss[0], weight) + Size(ss[1..], weight)
  }

  function SizeOne(s: Selection, weight: map<string, nat>): (n: nat)
    ensures n >= 1
  {
    match s
    case Field(_, _, _, _, sub) => 1 + if sub.SelectionSet? then Size(sub.selections, weight) else 0
    case InlineFragment(_, _, selections) => 1 + Size(selections, weight)
    case FragmentSpread(name, _) => 1 + if name in weight then weight[name] else 0
  }

  function SizeAll(sets: seq<seq<Selection>>, weight: map<string, nat>): nat {
    if sets == [] then 0 else 1 + Size(sets[0], weight) + SizeAll(sets[1..], weight)
  }

  predicate Bounds(fragments: map<string, FragmentBody>, weight: map<string, nat>) {
    forall f <- fragments :: f in weight && Size(fragments[f].selections, weight) <= weight[f]
  }

  predicate Finite(x: Exec) { Bounds(x.env.fragments, x.weight) }

  lemma {:induction false} SizeConcat(a: seq<Selection>, b: seq<Selection>, weight: map<string, nat>)
    ensures Size(a + b, weight) == Size(a, weight) + Size(b, weight)
  {
    if a == [] {
      assert a + b == b;
    } else {
      assert (a + b)[1..] == a[1..] + b;
      SizeConcat(a[1..], b, weight);
    }
  }

  lemma {:induction false} SizeAllConcat(a: seq<seq<Selection>>, b: seq<seq<Selection>>, weight: map<string, nat>)
    ensures SizeAll(a + b, weight) == SizeAll(a, weight) + SizeAll(b, weight)
  {
    if a == [] {
      assert a + b == b;
    } else {
      assert (a + b)[1..] == a[1..] + b;
      SizeAllConcat(a[1..], b, weight);
    }
  }

  lemma {:induction false} SizeUnder(nodes: seq<Selection>, key: string, weight: map<string, nat>)
    ensures Size(Under(nodes, key), weight) <= Size(nodes, weight)
  {
    if nodes != [] {
      var front, last := nodes[..|nodes| - 1], nodes[|nodes| - 1];
      assert nodes == front + [last];
      SizeConcat(front, [last], weight);
      SizeConcat(Under(front, key), [last], weight);
      assert Under(front, key) + [] == Under(front, key);
      SizeUnder(front, key, weight);
    }
  }

  /** Collecting never makes selections bigger, deferred ones included. */
  lemma {:induction false} WalkSize(x: Exec, runtimeType: string, ss: seq<Selection>, visited: set<string>)
    requires Finite(x)
    ensures var w := Walk(x.env, runtimeType, ss, visited, x.incremental);
            Size(w.nodes, x.weight) + SizeAll(w.deferred, x.weight) <= Size(ss, x.weight)
    decreases x.env.fragments.Keys - visited, ss
  {
    if ss != [] {
      var h := WalkOne(x.env, runtimeType, ss[0], visited, x.incremental);
      var t := Walk(x.env, runtimeType, ss[1..], h.visited, x.incremental);
      WalkOneSize(x, runtimeType, ss[0], visited);
      WalkSize(x, runtimeType, ss[1..], h.visited);
      SizeConcat(h.nodes, t.nodes, x.weight);
      SizeAllConcat(h.deferred, t.deferred, x.weight);
    }
  }

  lemma {:induction false} WalkOneSize(x: Exec, runtimeType: string, s: Selection, visited: set<string>)
    requires Finite(x)
    ensures var w := WalkOne(x.env, runtimeType, s, visited, x.incremental);
            Size(w.nodes, x.weight) + SizeAll(w.deferred, x.weight) <= SizeOne(s, x.weight)
    decreases x.env.fragments.Keys - visited, s
  {
    if IsField(x.env, s) {
      assert [s][1..] == [];
    } else if Expands(x.env, runtimeType, s) {
      assert 1 + Size(Body(x.env, s), x.weight) <= SizeOne(s, x.weight);
      if SetsAside(x.env, s, x.incremental) {
        assert [Body(x.env, s)][1..] == [];
      } else if s.InlineFragment? {
        WalkSize(x, runtimeType, s.selections, visited);
      } else if s.name !in visited {
        WalkSize(x, runtimeType, Body(x.env, s), visited + {s.name});
      }
    }
  }

  // ----- sub-selections ------------------------------------------------------------------------

  /** `_collect_subfields`: one fresh walk per field node, merged in order. */
  function SubWalk(x: Exec, runtimeType: string, nodes: seq<Selection>): (w: Walked) {
    if nodes == [] then Walked([], {}, [])
    else
      var h := NodeWalk(x, runtimeType, nodes[0]);
      var t := SubWalk(x, runtimeType, nodes[1..]);
      Walked(h.nodes + t.nodes, {}, h.deferred + t.deferred)
  }

  function NodeWalk(x: Exec, runtimeType: string, node: Selection): Walked {
    if node.Field? && node.selectionSet.SelectionSet?
    then Walk(x.env, runtimeType, node.selectionSet.selections, {}, x.incremental)
    else Walked([], {}, [])
  }

  lemma {:induction false} SubWalkSize(x: Exec, runtimeType: string, nodes: seq<Selection>)
    requires Finite(x)
    ensures var w := SubWalk(x, runtimeType, nodes);
            Size(w.nodes, x.weight) + SizeAll(w.deferred, x.weight) + |nodes| <= Size(nodes, x.weight)
  {
    if nodes != [] {
      var h := NodeWalk(x, runtimeType, nodes[0]);
      var t := SubWalk(x, runtimeType, nodes[1..]);
      if nodes[0].Field? && nodes[0].selectionSet.SelectionSet? {
        WalkSize(x, runtimeType, nodes[0].selectionSet.selections, {});
      }
      SubWalkSize(x, runtimeType, nodes[1..]);
      SizeConcat(h.nodes, t.nodes, x.weight);
      SizeAllConcat(h.deferred, t.deferred, x.weight);
    }
  }

  // ----- types and directives --------------------------------------------------------------------

  function FieldTypes(env: Env, typeName: string): map<string, TypeRef> {
    if typeName in env.types && env.types[typeName].ObjectType? then env.types[typeName].fields else map[]
  }

  predicate IsLeaf(env: Env, name: string) {
    name in env.types && (env.types[name].ScalarType? || env.types[name].EnumType?)
  }

  predicate IsComposite(env: Env, name: string) {
    name in env.types &&
    (env.types[name].ObjectType? || env.types[name].InterfaceType? || env.types[name].UnionType?)
  }

  /** `_resolve_concrete_type`: an object type is itself; otherwise ask, and accept only object types. */
  function ConcreteType(x: Exec, name: string, value: PyValue): Runtime
    requires IsComposite(x.env, name)
  {
    if x.env.types[name].ObjectType? then Inferred(Some(name))
    else
      match x.world.runtimeType(name, value)
      case RuntimeCrashed => RuntimeCrashed
      case Inferred(Some(n)) => if n in x.env.types && x.env.types[n].ObjectType? then Inferred(Some(n))
          else Inferred(None)
      case Inferred(None) => Inferred(None)
  }

  /** `_stream_arguments`, with the label left aside: the initial count when streaming is enabled. */
  function StreamCount(x: Exec, directives: seq<Directive>): Option<int> {
    if directives == [] then None
    else if directives[0].name == "stream" then
      if StreamEnabled(directives[0].arguments, true, x.env.variables)
      then Some(InitialCount(directives[0].arguments, 0, x.env.variables)) else None
    else StreamCount(x, directives[1..])
  }

  function StreamEnabled(arguments: seq<Argument>, enabled: bool, variables: map<string, VarValue>): bool {
    if arguments == [] then enabled
    else if arguments[0].name == "if" && (arguments[0].value.Variable? || arguments[0].value.BooleanValue?) then
      StreamEnabled(arguments[1..], Truthy(BoolValue(arguments[0].value, variables)), variables)
    else StreamEnabled(arguments[1..], enabled, variables)
  }

  function InitialCount(arguments: seq<Argument>, count: int, variables: map<string, VarValue>): int {
    if arguments == [] then count
    else if arguments[0].name == "initialCount" then
      match arguments[0].value
      case Variable(name) =>
        InitialCount(arguments[1..], VarCount(if name in variables then variables[name] else VNull), variables)
      case IntValue(lexeme) => InitialCount(arguments[1..], LexemeInt(lexeme), variables)
      case _ => InitialCount(arguments[1..], count, variables)
    else InitialCount(arguments[1..], count, variables)
  }

  function VarCount(value: VarValue): int {
    match value
    case VInt(n) => n
    case VBool(b) => if b then 1 else 0
    case _ => 0
  }

  /** The integer an IntValue lexeme denotes. */
  function LexemeInt(lexeme: string): int {
    if lexeme != "" && lexeme[0] == '-' then -DigitsValue(lexeme[1..]) else DigitsValue(lexeme)
  }

  function DigitsValue(digits: string): int {
    if digits == "" then 0
    else 10 * DigitsValue(digits[..|digits| - 1]) + (digits[|digits| - 1] as int - '0' as int)
  }

  // ----- execution ----------------------------------------------------------------------------------

  datatype DeferJob = DeferJob(objectType: string, source: PyValue, path: Path, selections: seq<Selection>)

  datatype StreamJob = StreamJob(ofType: TypeRef, nodes: seq<Selection>, path: Path, items: seq<PyValue>, next: nat)

  /** How an awaited step ends: with data, by signalling a null bubble, or with another exception. */
  datatype Ending = Data(json: Json) | Bubble | Crash

  /** An ending together with what the step appended to the executor's lists. */
  datatype Out = Out(ending: Ending, errors: seq<Error>, deferred: seq<DeferJob>, streamed: seq<StreamJob>)

  function Plain(ending: Ending, errors: seq<Error>): Out { Out(ending, errors, [], []) }

  /** `_record`: a path the error already carries is kept. */
  function Located(preset: Option<Path>, path: Path): Path {
    if preset.Some? then preset.value else path
  }

  function NullOrBubble(t: TypeRef): Ending { if t.NonNull? then Bubble else Data(JNull) }

  function DeferJobs(objectType: string, source: PyValue, path: Path, sets: seq<seq<Selection>>): seq<DeferJob> {
    seq(|sets|, i requires 0 <= i < |sets| => DeferJob(objectType, source, path, sets[i]))
  }

  ghost predicate KeysOf(keys: seq<string>, nodes: seq<Selection>) {
    forall k <- keys :: Under(nodes, k) != []
  }

  lemma AllKeys(nodes: seq<Selection>)
    ensures KeysOf(Keys(nodes), nodes)
  {
    KeysExact(nodes);
    forall k <- Keys(nodes) ensures Under(nodes, k) != [] {
      var n :| n in nodes && ResponseKey(n) == k;
      UnderExact(nodes, k);
      assert n in Under(nodes, k);
    }
  }

  /** `_execute_fields` over the groups of `nodes` named by `keys`. */
  function ExecuteFields(x: Exec, objectType: string, source: PyValue, nodes: seq<Selection>,
                         keys: seq<string>, path: Path, serial: bool): (out: Out)
    requires Finite(x) && KeysOf(keys, nodes)
    ensures out.ending.Bubble? || (out.ending.Data? && out.ending.json.JObject?)
    decreases Size(nodes, x.weight), 2, |keys|
  {
    if keys == [] then Plain(Data(JObject([])), [])
    else
      SizeUnder(nodes, keys[0], x.weight);
      var h := ExecuteField(x, objectType, source, Under(nodes, keys[0]), path + [Key(keys[0])]);
      if serial && h.ending.Bubble? then h
      else Beside(keys[0], h, ExecuteFields(x, objectType, source, nodes, keys[1..], path, serial))
  }

  /** Both endings awaited; any bubble bubbles. */
  function Beside(key: string, h: Out, t: Out): Out
    requires h.ending.Data? || h.ending.Bubble?
    requires t.ending.Bubble? || (t.ending.Data? && t.ending.json.JObject?)
  {
    Out(if h.ending.Bubble? || t.ending.Bubble? then Bubble
        else Data(JObject([Entry(key, h.ending.json)] + t.ending.json.entries)),
        h.errors + t.errors, h.deferred + t.deferred, h.streamed + t.streamed)
  }

  /** `_execute_field`. */
  function ExecuteField(x: Exec, objectType: string, source: PyValue, nodes: seq<Selection>, path: Path): (out: Out)
    requires Finite(x) && nodes != []
    ensures out.ending.Data? || out.ending.Bubble?
    decreases Size(nodes, x.weight), 1
  {
    var node := nodes[0];
    if !node.Field? then Plain(Data(JNull), [])
    else if node.name == "__typename" then Plain(Data(JName(objectType)), [])
    else if node.name !in FieldTypes(x.env, objectType) then Plain(Data(JNull), [])
    else
      var t := FieldTypes(x.env, objectType)[node.name];
      match x.world.resolve(objectType, node.name, ArgumentsMap(node.arguments), source, path)
      case Raised(preset) => Plain(NullOrBubble(t), [Error(Located(preset, path), ResolverFailed)])
      case Returned(value) => Caught(t, path, CompleteValue(x, t, nodes, path, value))
  }

  /** The handlers around resolving and completing a field. */
  function Caught(t: TypeRef, path: Path, out: Out): Out {
    if out.ending.Crash? then out.(ending := NullOrBubble(t), errors := out.errors + [Error(path, Unexpected)]) else out
  }

  /** `_complete_value`. */
  function CompleteValue(x: Exec, t: TypeRef, nodes: seq<Selection>, path: Path, value: PyValue): Out
    requires Finite(x) && nodes != []
    decreases Size(nodes, x.weight), 0, t, 0
  {
    match t
    case NonNull(u) => NotNull(path, value, CompleteValue(x, u, nodes, path, value))
    case ListType(u) =>
      if value.PyNull? then Plain(Data(JNull), [])
      else if !value.PyList? then Plain(Data(JNull), [Error(path, ExpectedList)])
      else
        var now := if x.incremental then Initial(x, nodes[0], value.items) else |value.items|;
        var out := CompleteItems(x, u, nodes, path, value.items[..now], 0);
        out.(streamed := (if now < |value.items| then [StreamJob(u, nodes, path, value.items[now..], now)] else [])
                          + out.streamed)
    case NamedType(name) =>
      if value.PyNull? then Plain(Data(JNull), [])
      else if IsLeaf(x.env, name) then CompleteLeaf(x, name, path, value)
      else if IsComposite(x.env, name) then
        match ConcreteType(x, name, value)
        case RuntimeCrashed => Plain(Crash, [])
        case Inferred(None) => Plain(Data(JNull), [Error(path, NoRuntimeType)])
        case Inferred(Some(objectType)) =>
          var sub := SubWalk(x, objectType, nodes);
          SubWalkSize(x, objectType, nodes);
          AllKeys(sub.nodes);
          var out := ExecuteFields(x, objectType, value, sub.nodes, Keys(sub.nodes), path, false);
          out.(ending := Absorbed(out.ending),
               deferred := DeferJobs(objectType, value, path, sub.deferred) + out.deferred)
      else Plain(Data(JNull), [])
  }

  /** The non-null wrapper: a null becomes a bubble, reported here only when the resolver returned it. */
  function NotNull(path: Path, value: PyValue, out: Out): Out {
    if out.ending != Data(JNull) then out
    else out.(ending := Bubble,
              errors := out.errors + if value.PyNull? then [Error(path, CannotReturnNull)] else [])
  }

  /** An object position stops a bubble. */
  function Absorbed(ending: Ending): Ending { if ending.Bubble? then Data(JNull) else ending }

  function CompleteLeaf(x: Exec, name: string, path: Path, value: PyValue): Out {
    match x.world.serialize(name, value)
    case Emitted(Some(atom)) => Plain(Data(JAtom(atom)), [])
    case Emitted(None) => Plain(Data(JNull), [])
    case Refused(preset) => Plain(Data(JNull), [Error(Located(preset, path), LeafRefused)])
    case Crashed => Plain(Crash, [])
  }

  /** How many items a list delivers at once. */
  function Initial(x: Exec, node: Selection, items: seq<PyValue>): (n: nat)
    ensures n <= |items|
  {
    match if node.Field? then StreamCount(x, node.directives) else None
    case None => |items|
    case Some(count) => if count <= 0 then 0 else if count < |items| then count else |items|
  }

  /** `_complete_list` on `items` (a bubbling item makes the list itself bubble, nullable or not), which stand at
      indices `from`, `from + 1`, and so on. */
  function CompleteItems(x: Exec, t: TypeRef, nodes: seq<Selection>, path: Path, items: seq<PyValue>,
      from: nat): (out: Out)
    requires Finite(x) && nodes != []
    ensures out.ending.Data? ==> out.ending.json.JList? && |out.ending.json.items| == |items|
    decreases Size(nodes, x.weight), 0, t, 1 + |items|
  {
    if items == [] then Plain(Data(JList([])), [])
    else
      Ahead(CompleteValue(x, t, nodes, path + [Index(from)], items[0]),
            CompleteItems(x, t, nodes, path, items[1..], from + 1))
  }

  /** All items are awaited; another exception wins over a bubble, a bubble over data. */
  function Ahead(h: Out, t: Out): Out
    requires t.ending.Data? ==> t.ending.json.JList?
  {
    Out(if h.ending.Crash? || t.ending.Crash? then Crash
        else if h.ending.Bubble? || t.ending.Bubble? then Bubble
        else Data(JList([h.ending.json] + t.ending.json.items)),
        h.errors + t.errors, h.deferred + t.deferred, h.streamed + t.streamed)
  }

  /** `execute_operation` on a configured root type. */
  function ExecuteOperation(x: Exec, rootType: string, rootValue: PyValue, ss: seq<Selection>, mutation: bool): Out
    requires Finite(x)
  {
    var w := Walk(x.env, rootType, ss, {}, x.incremental);
    AllKeys(w.nodes);
    var out := ExecuteFields(x, rootType, rootValue, w.nodes, Keys(w.nodes), [], mutation);
    out.(ending := Absorbed(out.ending), deferred := DeferJobs(rootType, rootValue, [], w.deferred) + out.deferred)
  }
}
