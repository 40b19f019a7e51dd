/** What nulls in a response mean: positions and their data, non-null soundness and the exact bubbling
    rule. With incremental delivery it is about what one payload holds. */
module NullPropagation {
  import opened Ast
  import opened CollectFields
  import opened Executor

  // ----- positions -------------------------------------------------------------------------

  /** A place in the response: its type, the field nodes behind it, its response path, and what the
      resolver gave for it. `caught` marks field positions, where any exception is handled. */
  datatype Position = Position(t: TypeRef, nodes: seq<Selection>, path: Path, raw: Resolved, caught: bool)

  predicate Ready(x: Exec) { Finite(x) && !x.incremental }

  function Strip(t: TypeRef): TypeRef { if t.NonNull? then Strip(t.ofType) else t }

  /** The items a list delivers at once: all of them, or the initial ones of a streamed list. */
  function Shown(x: Exec, nodes: seq<Selection>, items: seq<PyValue>): (shown: seq<PyValue>)
    ensures shown <= items && (!x.incremental ==> shown == items)
  {
    if x.incremental && nodes != [] then items[..Initial(x, nodes[0], items)] else items
  }

  /** A list's outcome joins those of the items shown, whatever it leaves to be streamed. */
  lemma ListJoins(x: Exec, u: TypeRef, nodes: seq<Selection>, path: Path, items: seq<PyValue>)
    requires Finite(x) && nodes != []
    ensures var out := CompleteValue(x, ListType(u), nodes, path, PyList(items));
            var joined := JoinItems(ItemOuts(x, u, nodes, path, Shown(x, nodes, items), 0));
            out.ending == joined.ending && out.errors == joined.errors && out.deferred == joined.deferred
  {
    assert items[..|items|] == items;
    ItemsJoin(x, u, nodes, path, Shown(x, nodes, items), 0);
  }

  /** The field `key` of an object of type `objectType`, when it is a typed field. */
  function FieldPosition(x: Exec, objectType: string, source: PyValue, nodes: seq<Selection>, path: Path,
      key: string): Option<Position>
  {
    var under := Under(nodes, key);
    if under == [] || !under[0].Field? || under[0].name == "__typename"
    || under[0].name !in FieldTypes(x.env, objectType) then None
    else
      var here := path + [Key(key)];
      Some(Position(FieldTypes(x.env, objectType)[under[0].name], under, here,
                    x.world.resolve(objectType, under[0].name, Arguments.ArgumentsMap(under[0].arguments), source,
                        here), true))
  }

  /** The position one step below `p`. */
  function Child(x: Exec, p: Position, step: Step): Option<Position> {
    if p.raw.Raised? || p.raw.value.PyNull? then None
    else
      match (Strip(p.t), step)
      case (ListType(u), Index(i)) =>
        if p.raw.value.PyList? && i < |Shown(x, p.nodes, p.raw.value.items)|
        then Some(Position(u, p.nodes, p.path + [step], Returned(p.raw.value.items[i]), false)) else None
      case (NamedType(name), Key(key)) =>
        if IsComposite(x.env, name) && !IsLeaf(x.env, name) then
          match ConcreteType(x, name, p.raw.value)
          case Inferred(Some(objectType)) =>
            FieldPosition(x, objectType, p.raw.value, SubWalk(x, objectType, p.nodes).nodes, p.path, key)
          case _ => None
        else None
      case _ => None
  }

  /** What completing the position gives. */
  function Outcome(x: Exec, p: Position): Out
    requires Finite(x) && p.nodes != []
  {
    match p.raw
    case Raised(preset) => Plain(NullOrBubble(p.t), [Error(Located(preset, p.path), ResolverFailed)])
    case Returned(value) =>
      var out := CompleteValue(x, p.t, p.nodes, p.path, value);
      if p.caught then Caught(p.t, p.path, out) else out
  }

  // ----- exceptions other than GraphQL errors ---------------------------------------------------

  /** Completing `value` runs into another exception: in a serializer, in runtime type resolution, or
      in some item of a list. */
  predicate CrashesAt(x: Exec, t: TypeRef, nodes: seq<Selection>, value: PyValue) {
    match t
    case NonNull(u) => CrashesAt(x, u, nodes, value)
    case ListType(u) => value.PyList? && exists item <- Shown(x, nodes, value.items) :: CrashesAt(x, u, nodes, item)
    case NamedType(name) =>
      && !value.PyNull?
      && if IsLeaf(x.env, name) then x.world.serialize(name, value).Crashed?
         else IsComposite(x.env, name) && ConcreteType(x, name, value).RuntimeCrashed?
  }

  lemma {:induction false} CrashExact(x: Exec, t: TypeRef, nodes: seq<Selection>, path: Path, value: PyValue)
    requires Finite(x) && nodes != []
    ensures CompleteValue(x, t, nodes, path, value).ending.Crash? <==> CrashesAt(x, t, nodes, value)
    decreases t, 0
  {
    match t
    case NonNull(u) => CrashExact(x, u, nodes, path, value);
    case ListType(u) =>
      if value.PyList? {
        CrashExactItems(x, u, nodes, path, Shown(x, nodes, value.items), 0);
        assert value.items[..|value.items|] == value.items;
      }
    case NamedType(name) =>
  }

  lemma {:induction false} CrashExactItems(x: Exec, t: TypeRef, nodes: seq<Selection>, path: Path, items: seq<PyValue>,
      from: nat)
    requires Finite(x) && nodes != []
    ensures CompleteItems(x, t, nodes, path, items, from).ending.Crash?
            <==> exists item <- items :: CrashesAt(x, t, nodes, item)
    decreases t, 1 + |items|
  {
    if items != [] {
      CrashExact(x, t, nodes, path + [Index(from)], items[0]);
      CrashExactItems(x, t, nodes, path, items[1..], from + 1);
      assert forall item <- items :: item == items[0] || item in items[1..];
    }
  }

  // ----- siblings and items ------------------------------------------------------------------------

  function FieldOut(x: Exec, objectType: string, source: PyValue, nodes: seq<Selection>, path: Path,
      key: string): (out: Out)
    requires Finite(x) && Under(nodes, key) != []
    ensures !out.ending.Crash?
  {
    ExecuteField(x, objectType, source, Under(nodes, key), path + [Key(key)])
  }

  function FieldOuts(x: Exec, objectType: string, source: PyValue, nodes: seq<Selection>, keys: seq<string>,
      path: Path): (outs: seq<Out>)
    requires Finite(x) && KeysOf(keys, nodes)
    ensures |outs| == |keys| && forall i | 0 <= i < |keys| ::
            outs[i] == FieldOut(x, objectType, source, nodes, path, keys[i])
    ensures forall out <- outs :: !out.ending.Crash?
  {
    seq(|keys|, i requires 0 <= i < |keys| => FieldOut(x, objectType, source, nodes, path, keys[i]))
  }

  function ItemOuts(x: Exec, t: TypeRef, nodes: seq<Selection>, path: Path, items: seq<PyValue>,
      from: nat): (outs: seq<Out>)
    requires Finite(x) && nodes != []
    ensures |outs| == |items|
    ensures forall i | 0 <= i < |items| :: outs[i] == CompleteValue(x, t, nodes, path + [Index(from + i)], items[i])
  {
    seq(|items|, i requires 0 <= i < |items| => CompleteValue(x, t, nodes, path + [Index(from + i)], items[i]))
  }

  /** Awaiting sibling fields together. */
  function JoinFields(keys: seq<string>, outs: seq<Out>, serial: bool): (out: Out)
    requires |keys| == |outs| && forall o <- outs :: !o.ending.Crash?
    ensures out.ending.Bubble? || (out.ending.Data? && out.ending.json.JObject?)
  {
    if keys == [] then Plain(Data(JObject([])), [])
    else if serial && outs[0].ending.Bubble? then outs[0]
    else Beside(keys[0], outs[0], JoinFields(keys[1..], outs[1..], serial))
  }

  /** Awaiting list items together. */
  function JoinItems(outs: seq<Out>): (out: Out)
    ensures out.ending.Data? ==> out.ending.json.JList?
  {
    if outs == [] then Plain(Data(JList([])), []) else Ahead(outs[0], JoinItems(outs[1..]))
  }

  lemma {:induction false} FieldsJoin(x: Exec, objectType: string, source: PyValue, nodes: seq<Selection>,
                   keys: seq<string>, path: Path, serial: bool)
    requires Finite(x) && KeysOf(keys, nodes)
    ensures ExecuteFields(x, objectType, source, nodes, keys, path, serial)
            == JoinFields(keys, FieldOuts(x, objectType, source, nodes, keys, path), serial)
    decreases |keys|
  {
    if keys != [] {
      assert FieldOuts(x, objectType, source, nodes, keys, path)[1..]
          == FieldOuts(x, objectType, source, nodes, keys[1..], path);
      FieldsJoin(x, objectType, source, nodes, keys[1..], path, serial);
    }
  }

  lemma {:induction false} ItemsJoin(x: Exec, t: TypeRef, nodes: seq<Selection>, path: Path, items: seq<PyValue>,
      from: nat)
    requires Finite(x) && nodes != []
    ensures CompleteItems(x, t, nodes, path, items, from) == JoinItems(ItemOuts(x, t, nodes, path, items, from))
    decreases |items|
  {
    if items != [] {
      assert ItemOuts(x, t, nodes, path, items, from)[1..] == ItemOuts(x, t, nodes, path, items[1..], from + 1);
      ItemsJoin(x, t, nodes, path, items[1..], from + 1);
    }
  }

  /** Fields end together in data, one entry per key in order, unless one of them bubbles. */
  lemma {:induction false} JoinedFields(keys: seq<string>, outs: seq<Out>, serial: bool)
    requires |keys| == |outs| && forall o <- outs :: !o.ending.Crash?
    ensures var out := JoinFields(keys, outs, serial);
            && (out.ending.Bubble? <==> exists o <- outs :: o.ending.Bubble?)
            && (out.ending.Data? ==>
                  && |out.ending.json.entries| == |keys|
                  && forall i | 0 <= i < |keys| ::
                       outs[i].ending.Data?
                       && out.ending.json.entries[i] == Entry(keys[i], outs[i].ending.json))
    decreases |keys|
  {
    if keys != [] {
      JoinedFields(keys[1..], outs[1..], serial);
      assert forall o <- outs :: o == outs[0] || o in outs[1..];
    }
  }

  lemma {:induction false} JoinedItems(outs: seq<Out>)
    ensures var out := JoinItems(outs);
            && (out.ending.Crash? <==> exists o <- outs :: o.ending.Crash?)
            && (out.ending.Bubble? <==> (forall o <- outs :: !o.ending.Crash?) && exists o <- outs :: o.ending.Bubble?)
            && (out.ending.Data? ==>
                  && |out.ending.json.items| == |outs|
                  && forall i | 0 <= i < |outs| :: outs[i].ending == Data(out.ending.json.items[i]))
  {
    if outs != [] {
      JoinedItems(outs[1..]);
      assert forall o <- outs :: o == outs[0] || o in outs[1..];
    }
  }

  // ----- data is local ----------------------------------------------------------------------------

  function Find(entries: seq<Entry>, key: string): Option<Json> {
    if entries == [] then None
    else if entries[0].key == key then Some(entries[0].value)
    else Find(entries[1..], key)
  }

  function StepInto(json: Json, step: Step): Option<Json> {
    match (json, step)
    case (JList(items), Index(i)) => if i < |items| then Some(items[i]) else None
    case (JObject(entries), Key(key)) => Find(entries, key)
    case _ => None
  }

  /** The data at a response path, when the path leads somewhere. */
  function DataAt(json: Json, path: Path): Option<Json>
    decreases |path|
  {
    if path == [] then Some(json)
    else match StepInto(json, path[0])
         case Some(inner) => DataAt(inner, path[1..])
         case None => None
  }

  /** The position at a path below `p`. */
  function PositionAt(x: Exec, p: Position, path: Path): Option<Position>
    decreases |path|
  {
    if path == [] then Some(p)
    else match Child(x, p, path[0])
         case Some(child) => PositionAt(x, child, path[1..])
         case None => None
  }

  lemma {:induction false} FindAt(entries: seq<Entry>, i: nat)
    requires i < |entries| && forall j | 0 <= j < i :: entries[j].key != entries[i].key
    ensures Find(entries, entries[i].key) == Some(entries[i].value)
  {
    if i > 0 { FindAt(entries[1..], i - 1); }
  }

  /** A field position's outcome is what executing the field gives. */
  lemma FieldIsPosition(x: Exec, objectType: string, source: PyValue, nodes: seq<Selection>, path: Path, key: string)
    requires Finite(x) && FieldPosition(x, objectType, source, nodes, path, key).Some?
    ensures Under(nodes, key) != []
    ensures FieldOut(x, objectType, source, nodes, path, key)
            == Outcome(x, FieldPosition(x, objectType, source, nodes, path, key).value)
  {
  }

  /** However many non-null wrappers, they act once. */
  lemma {:induction false} Stripped(x: Exec, t: TypeRef, nodes: seq<Selection>, path: Path, value: PyValue)
    requires Finite(x) && nodes != [] && t.NonNull?
    ensures CompleteValue(x, t, nodes, path, value)
            == NotNull(path, value, CompleteValue(x, Strip(t), nodes, path, value))
  {
    if t.ofType.NonNull? { Stripped(x, t.ofType, nodes, path, value); }
  }

  /** What an object holds under a key is the data of that key's field. */
  lemma JoinedFind(keys: seq<string>, outs: seq<Out>, serial: bool, i: nat)
    requires |keys| == |outs| && forall o <- outs :: !o.ending.Crash?
    requires i < |keys| && forall j | 0 <= j < i :: keys[j] != keys[i]
    ensures var out := JoinFields(keys, outs, serial);
            out.ending.Data? ==>
              outs[i].ending.Data? && StepInto(out.ending.json, Key(keys[i])) == Some(outs[i].ending.json)
  {
    var out := JoinFields(keys, outs, serial);
    JoinedFields(keys, outs, serial);
    if out.ending.Data? {
      FindAt(out.ending.json.entries, i);
    }
  }

  lemma KeyIndex(nodes: seq<Selection>, key: string) returns (i: nat)
    requires Under(nodes, key) != []
    ensures i < |Keys(nodes)| && Keys(nodes)[i] == key && forall j | 0 <= j < i :: Keys(nodes)[j] != key
  {
    KeysExact(nodes);
    UnderExact(nodes, key);
    assert Under(nodes, key)[0] in Under(nodes, key);
    i :| 0 <= i < |Keys(nodes)| && Keys(nodes)[i] == key;
  }

  /** The data of an object's field is that field's own outcome. */
  lemma ObjectDataIsLocal(x: Exec, objectType: string, source: PyValue, nodes: seq<Selection>, path: Path,
                          serial: bool, key: string)
    requires Finite(x) && KeysOf(Keys(nodes), nodes) && Under(nodes, key) != []
    ensures var out := ExecuteFields(x, objectType, source, nodes, Keys(nodes), path, serial);
            var field := FieldOut(x, objectType, source, nodes, path, key);
            out.ending.Data? ==> field.ending.Data? && StepInto(out.ending.json, Key(key)) == Some(field.ending.json)
  {
    var i := KeyIndex(nodes, key);
    FieldsJoin(x, objectType, source, nodes, Keys(nodes), path, serial);
    JoinedFind(Keys(nodes), FieldOuts(x, objectType, source, nodes, Keys(nodes), path), serial, i);
  }

  lemma {:induction false} ChildDataIsLocal(x: Exec, p: Position, step: Step)
    requires Finite(x) && p.nodes != []
    requires Child(x, p, step).Some?
    ensures Child(x, p, step).value.nodes != []
    ensures var out := Outcome(x, p);
            out.ending.Data? && StepInto(out.ending.json, step).Some? ==>
              Outcome(x, Child(x, p, step).value).ending == Data(StepInto(out.ending.json, step).value)
  {
    var value := p.raw.value;
    var base := Strip(p.t);
    if p.t.NonNull? { Stripped(x, p.t, p.nodes, p.path, value); }
    match base
    case ListType(u) =>
      ListJoins(x, u, p.nodes, p.path, value.items);
      JoinedItems(ItemOuts(x, u, p.nodes, p.path, Shown(x, p.nodes, value.items), 0));
    case NamedType(name) =>
      var objectType := ConcreteType(x, name, value).name.value;
      var sub := SubWalk(x, objectType, p.nodes).nodes;
      AllKeys(sub);
      FieldIsPosition(x, objectType, value, sub, p.path, step.key);
      ObjectDataIsLocal(x, objectType, value, sub, p.path, false, step.key);
  }

  /** Where data is not null, every child has its data. */
  lemma {:induction false} ChildThere(x: Exec, p: Position, step: Step)
    requires Finite(x) && p.nodes != [] && Child(x, p, step).Some?
    requires Outcome(x, p).ending.Data? && !Outcome(x, p).ending.json.JNull?
    ensures StepInto(Outcome(x, p).ending.json, step).Some?
  {
    var value := p.raw.value;
    if p.t.NonNull? { Stripped(x, p.t, p.nodes, p.path, value); }
    match Strip(p.t)
    case ListType(u) =>
      ListJoins(x, u, p.nodes, p.path, value.items);
      JoinedItems(ItemOuts(x, u, p.nodes, p.path, Shown(x, p.nodes, value.items), 0));
    case NamedType(name) =>
      var objectType := ConcreteType(x, name, value).name.value;
      var sub := SubWalk(x, objectType, p.nodes).nodes;
      AllKeys(sub);
      ObjectDataIsLocal(x, objectType, value, sub, p.path, false, step.key);
  }

  /** The data found at any response path below `p` is what completing the position there gives. */
  lemma {:induction false} DataIsLocal(x: Exec, p: Position, path: Path)
    requires Finite(x) && p.nodes != [] && Outcome(x, p).ending.Data?
    requires PositionAt(x, p, path).Some? && DataAt(Outcome(x, p).ending.json, path).Some?
    ensures var q := PositionAt(x, p, path).value;
            q.nodes != [] && Outcome(x, q).ending == Data(DataAt(Outcome(x, p).ending.json, path).value)
    decreases |path|
  {
    if path != [] {
      ChildDataIsLocal(x, p, path[0]);
      DataIsLocal(x, Child(x, p, path[0]).value, path[1..]);
    }
  }

  // ----- exactly when a position is null or bubbles ---------------------------------------------

  predicate Emits(s: Serialized) { s.Emitted? && s.atom.Some? }

  predicate Infers(r: Runtime) { r.Inferred? && r.name.Some? }

  /** A value that cannot be completed at base type `b`, whatever stands below it. */
  predicate BaseNull(x: Exec, b: TypeRef, value: PyValue) {
    value.PyNull? ||
    match b
    case ListType(_) => !value.PyList?
    case NamedType(name) =>
      if IsLeaf(x.env, name) then !Emits(x.world.serialize(name, value))
      else IsComposite(x.env, name) ==> !Infers(ConcreteType(x, name, value))
    case NonNull(_) => false
  }

  /** The null originates here: the resolver raised or gave None, or its value cannot be completed. */
  predicate LocalNull(x: Exec, p: Position) {
    || p.raw.Raised?
    || (p.caught && CrashesAt(x, p.t, p.nodes, p.raw.value))
    || BaseNull(x, Strip(p.t), p.raw.value)
  }

  /** Any exception at this position is turned into a null, or there is none. */
  predicate Settled(x: Exec, p: Position) {
    p.nodes != [] && (p.raw.Returned? && !p.caught ==> !CrashesAt(x, p.t, p.nodes, p.raw.value))
  }

  /** A bubble coming from below goes on: lists never stop it, nullable or not; objects only when non-null. */
  predicate Conducts(x: Exec, p: Position) {
    !LocalNull(x, p) && (Strip(p.t).ListType? || p.t.NonNull?)
  }

  /** `path` leads from `p` to a non-null position with a null of its own, through positions that
      all pass the bubble on. */
  predicate BubbleFrom(x: Exec, p: Position, path: Path)
    decreases |path|
  {
    if path == [] then p.t.NonNull? && LocalNull(x, p)
    else Conducts(x, p) && Child(x, p, path[0]).Some? && BubbleFrom(x, Child(x, p, path[0]).value, path[1..])
  }

  predicate ChildBubbles(x: Exec, p: Position, step: Step)
    requires Finite(x)
  {
    Child(x, p, step).Some? && Child(x, p, step).value.nodes != []
    && Outcome(x, Child(x, p, step).value).ending.Bubble?
  }

  ghost predicate SomeChildBubbles(x: Exec, p: Position)
    requires Finite(x)
  {
    exists step :: ChildBubbles(x, p, step)
  }

  lemma ChildSettled(x: Exec, p: Position, step: Step)
    requires Finite(x) && Settled(x, p) && !LocalNull(x, p) && Child(x, p, step).Some?
    ensures Settled(x, Child(x, p, step).value)
  {
    StripCrashes(x, p.t, p.nodes, p.raw.value);
  }

  lemma {:induction false} StripCrashes(x: Exec, t: TypeRef, nodes: seq<Selection>, value: PyValue)
    ensures CrashesAt(x, t, nodes, value) <==> CrashesAt(x, Strip(t), nodes, value)
  {
    if t.NonNull? { StripCrashes(x, t.ofType, nodes, value); }
  }

  lemma {:induction false} StripNotNonNull(t: TypeRef)
    ensures !Strip(t).NonNull?
  {
    if t.NonNull? { StripNotNonNull(t.ofType); }
  }

  lemma {:induction false} LocalNullOutcome(x: Exec, p: Position)
    requires Finite(x) && Settled(x, p) && LocalNull(x, p)
    ensures Outcome(x, p).ending == NullOrBubble(p.t)
  {
    if p.raw.Returned? {
      var value, base := p.raw.value, Strip(p.t);
      StripNotNonNull(p.t);
      StripCrashes(x, p.t, p.nodes, value);
      CrashExact(x, p.t, p.nodes, p.path, value);
      if !CrashesAt(x, p.t, p.nodes, value) {
        if p.t.NonNull? { Stripped(x, p.t, p.nodes, p.path, value); }
        assert CompleteValue(x, base, p.nodes, p.path, value).ending == Data(JNull);
      }
    }
  }

  /** Completing a non-null base value: what its children decide. */
  lemma {:induction false} BaseOutcome(x: Exec, p: Position)
    requires Finite(x) && Settled(x, p) && !LocalNull(x, p) && !p.t.NonNull?
    ensures var ending := Outcome(x, p).ending;
            match p.t
            case ListType(_) => if SomeChildBubbles(x, p) then ending.Bubble? else ending.Data? && ending.json.JList?
            case NamedType(name) =>
              if SomeChildBubbles(x, p) then ending == Data(JNull)
              else ending.Data? && !ending.json.JNull?
            case _ => true
  {
    var value := p.raw.value;
    CrashExact(x, p.t, p.nodes, p.path, value);
    match p.t
    case ListType(u) => ListOutcome(x, p);
    case NamedType(name) =>
      if !IsLeaf(x.env, name) { ObjectOutcome(x, p); }
    case NonNull(_) =>
  }

  lemma ItemChild(x: Exec, p: Position, i: nat)
    requires Finite(x) && p.nodes != [] && p.t.ListType?
    requires p.raw.Returned? && p.raw.value.PyList? && i < |Shown(x, p.nodes, p.raw.value.items)|
    ensures Child(x, p, Index(i)).Some? && Child(x, p, Index(i)).value.nodes != []
    ensures Outcome(x, Child(x, p, Index(i)).value)
            == ItemOuts(x, p.t.ofType, p.nodes, p.path, Shown(x, p.nodes, p.raw.value.items), 0)[i]
  {
  }

  lemma {:induction false} ListOutcome(x: Exec, p: Position)
    requires Finite(x) && Settled(x, p) && !LocalNull(x, p) && p.t.ListType?
    ensures Outcome(x, p).ending.Bubble? <==> SomeChildBubbles(x, p)
    ensures Outcome(x, p).ending.Bubble? || (Outcome(x, p).ending.Data? && Outcome(x, p).ending.json.JList?)
  {
    var u, items := p.t.ofType, p.raw.value.items;
    var outs := ItemOuts(x, u, p.nodes, p.path, Shown(x, p.nodes, items), 0);
    CrashExact(x, p.t, p.nodes, p.path, p.raw.value);
    ListJoins(x, u, p.nodes, p.path, items);
    JoinedItems(outs);
    if o :| o in outs && o.ending.Bubble? {
      var i :| 0 <= i < |outs| && outs[i] == o;
      ItemChild(x, p, i);
      assert ChildBubbles(x, p, Index(i));
    }
    if SomeChildBubbles(x, p) {
      var step :| ChildBubbles(x, p, step);
      ItemChild(x, p, step.i);
      assert outs[step.i] in outs;
    }
  }

  lemma {:induction false} ObjectOutcome(x: Exec, p: Position)
    requires Finite(x) && Settled(x, p) && !LocalNull(x, p) && p.t.NamedType? && !IsLeaf(x.env, p.t.name)
    ensures Outcome(x, p).ending.Data?
    ensures Outcome(x, p).ending.json.JNull? <==> SomeChildBubbles(x, p)
  {
    if IsComposite(x.env, p.t.name) {
      var objectType := ConcreteType(x, p.t.name, p.raw.value).name.value;
      var sub := SubWalk(x, objectType, p.nodes).nodes;
      AllKeys(sub);
      ObjectBubbles(x, objectType, p.raw.value, sub, p.path, false);
      assert forall key :: ChildBubbles(x, p, Key(key)) <==> FieldBubbles(x, objectType, p.raw.value, sub, p.path, key);
    }
  }

  predicate FieldBubbles(x: Exec, objectType: string, source: PyValue, nodes: seq<Selection>, path: Path, key: string)
    requires Finite(x)
  {
    FieldPosition(x, objectType, source, nodes, path, key).Some?
    && Outcome(x, FieldPosition(x, objectType, source, nodes, path, key).value).ending.Bubble?
  }

  ghost predicate SomeFieldBubbles(x: Exec, objectType: string, source: PyValue, nodes: seq<Selection>, path: Path)
    requires Finite(x)
  {
    exists key :: FieldBubbles(x, objectType, source, nodes, path, key)
  }

  lemma {:induction false} ObjectBubbles(x: Exec, objectType: string, source: PyValue, nodes: seq<Selection>,
      path: Path, serial: bool)
    requires Finite(x) && KeysOf(Keys(nodes), nodes)
    ensures ExecuteFields(x, objectType, source, nodes, Keys(nodes), path, serial).ending.Bubble?
            <==> SomeFieldBubbles(x, objectType, source, nodes, path)
  {
    var keys := Keys(nodes);
    var outs := FieldOuts(x, objectType, source, nodes, keys, path);
    FieldsJoin(x, objectType, source, nodes, keys, path, serial);
    JoinedFields(keys, outs, serial);
    if o :| o in outs && o.ending.Bubble? {
      var i :| 0 <= i < |outs| && outs[i] == o;
      BubblingField(x, objectType, source, nodes, path, keys[i]);
    }
    if SomeFieldBubbles(x, objectType, source, nodes, path) {
      var key :| FieldBubbles(x, objectType, source, nodes, path, key);
      FieldIsPosition(x, objectType, source, nodes, path, key);
      var i := KeyIndex(nodes, key);
      assert outs[i] in outs;
    }
  }

  lemma BubblingField(x: Exec, objectType: string, source: PyValue, nodes: seq<Selection>, path: Path, key: string)
    requires Finite(x) && Under(nodes, key) != [] && FieldOut(x, objectType, source, nodes, path, key).ending.Bubble?
    ensures SomeFieldBubbles(x, objectType, source, nodes, path)
  {
    assert FieldPosition(x, objectType, source, nodes, path, key).Some?;
    FieldIsPosition(x, objectType, source, nodes, path, key);
    assert FieldBubbles(x, objectType, source, nodes, path, key);
  }

  // ----- the bubbling rule, exactly ---------------------------------------------------------------

  /** Children have smaller selections, or are items of a smaller type. */
  lemma ChildSmaller(x: Exec, p: Position, step: Step)
    requires Finite(x) && p.nodes != [] && Child(x, p, step).Some?
    ensures var c := Child(x, p, step).value;
            || Size(c.nodes, x.weight) < Size(p.nodes, x.weight)
            || (c.nodes == p.nodes && Depth(c.t) < Depth(p.t))
  {
    StripDepth(p.t);
    if Strip(p.t).NamedType? {
      var objectType := ConcreteType(x, Strip(p.t).name, p.raw.value).name.value;
      var sub := SubWalk(x, objectType, p.nodes).nodes;
      SubWalkSize(x, objectType, p.nodes);
      SizeUnder(sub, step.key, x.weight);
    }
  }

  function Depth(t: TypeRef): nat {
    match t
    case NamedType(_) => 0
    case ListType(u) => 1 + Depth(u)
    case NonNull(u) => 1 + Depth(u)
  }

  lemma {:induction false} StripDepth(t: TypeRef)
    ensures Depth(Strip(t)) <= Depth(t)
  {
    if t.NonNull? { StripDepth(t.ofType); }
  }

  /** One level of the rule: without a null of its own, a position bubbles exactly when it conducts
      and a child bubbles. */
  lemma ConductedBubble(x: Exec, p: Position)
    requires Finite(x) && Settled(x, p) && !LocalNull(x, p)
    ensures Outcome(x, p).ending.Bubble? <==> Conducts(x, p) && SomeChildBubbles(x, p)
    ensures Outcome(x, p).ending == Data(JNull) <==> !Conducts(x, p) && SomeChildBubbles(x, p)
  {
    StripNotNonNull(p.t);
    if p.t.NonNull? {
      var q := p.(t := Strip(p.t));
      StripCrashes(x, p.t, p.nodes, p.raw.value);
      StripIdempotent(p.t);
      Stripped(x, p.t, p.nodes, p.path, p.raw.value);
      CrashExact(x, p.t, p.nodes, p.path, p.raw.value);
      CrashExact(x, q.t, p.nodes, p.path, p.raw.value);
      BaseOutcome(x, q);
      assert forall step :: ChildBubbles(x, p, step) <==> ChildBubbles(x, q, step);
    } else {
      BaseOutcome(x, p);
    }
  }

  lemma {:induction false} StripIdempotent(t: TypeRef)
    ensures Strip(Strip(t)) == Strip(t)
  {
    if t.NonNull? { StripIdempotent(t.ofType); }
  }

  /** A bubble has a chain leading to where it started. */
  lemma {:induction false} BubbleHasChain(x: Exec, p: Position) returns (path: Path)
    requires Finite(x) && Settled(x, p) && Outcome(x, p).ending.Bubble?
    ensures BubbleFrom(x, p, path)
    decreases Size(p.nodes, x.weight), Depth(p.t)
  {
    if LocalNull(x, p) {
      LocalNullOutcome(x, p);
      path := [];
    } else {
      ConductedBubble(x, p);
      var step :| ChildBubbles(x, p, step);
      ChildSettled(x, p, step);
      ChildSmaller(x, p, step);
      var rest := BubbleHasChain(x, Child(x, p, step).value);
      path := [step] + rest;
      assert path[1..] == rest;
    }
  }

  /** A chain makes its first position bubble. */
  lemma {:induction false} ChainBubbles(x: Exec, p: Position, path: Path)
    requires Finite(x) && Settled(x, p) && BubbleFrom(x, p, path)
    ensures Outcome(x, p).ending.Bubble?
    decreases |path|
  {
    if path == [] {
      LocalNullOutcome(x, p);
    } else {
      ChildSettled(x, p, path[0]);
      ChainBubbles(x, Child(x, p, path[0]).value, path[1..]);
      assert ChildBubbles(x, p, path[0]);
      ConductedBubble(x, p);
    }
  }

  /** Some chain of bubbles starts at the position. */
  ghost predicate BubbleChain(x: Exec, p: Position) { exists path :: BubbleFrom(x, p, path) }

  /** A position bubbles exactly when a bubble chain starts at it. */
  lemma BubblesExactly(x: Exec, p: Position)
    requires Finite(x) && Settled(x, p)
    ensures Outcome(x, p).ending.Bubble? <==> BubbleChain(x, p)
  {
    if Outcome(x, p).ending.Bubble? {
      var path := BubbleHasChain(x, p);
      assert BubbleChain(x, p);
    }
    if BubbleChain(x, p) {
      var path :| BubbleFrom(x, p, path);
      ChainBubbles(x, p, path);
    }
  }

  /** A chain of bubbles that reaches the object position `p` from the child at `step`. */
  predicate ChainBelow(x: Exec, p: Position, step: Step, path: Path) {
    Child(x, p, step).Some? && BubbleFrom(x, Child(x, p, step).value, path)
  }

  /** Data is null at a position exactly when the position is nullable and either the null is its
      own, or it is an object position where a chain of bubbles from a child ends. */
  lemma NullExactly(x: Exec, p: Position)
    requires Finite(x) && Settled(x, p)
    ensures Outcome(x, p).ending == Data(JNull) <==>
            && !p.t.NonNull?
            && (LocalNull(x, p) || (p.t.NamedType? && exists step, path :: ChainBelow(x, p, step, path)))
  {
    if LocalNull(x, p) {
      LocalNullOutcome(x, p);
    } else {
      ConductedBubble(x, p);
      if step :| ChildBubbles(x, p, step) {
        ChildSettled(x, p, step);
        var path := BubbleHasChain(x, Child(x, p, step).value);
        assert ChainBelow(x, p, step, path);
      }
      if step, path :| ChainBelow(x, p, step, path) {
        ChildSettled(x, p, step);
        ChainBubbles(x, Child(x, p, step).value, path);
        assert ChildBubbles(x, p, step);
      }
    }
  }

  // ----- the whole response ----------------------------------------------------------------------

  /** The typed position at `rel` below an object whose fields are `nodes`. */
  function PositionIn(x: Exec, objectType: string, source: PyValue, nodes: seq<Selection>, path: Path,
      rel: Path): Option<Position>
  {
    if rel == [] || !rel[0].Key? then None
    else match FieldPosition(x, objectType, source, nodes, path, rel[0].key)
         case Some(p) => PositionAt(x, p, rel[1..])
         case None => None
  }

  /** The typed position at a response path of an operation. */
  function OperationPosition(x: Exec, rootType: string, rootValue: PyValue, ss: seq<Selection>,
      path: Path): Option<Position>
  {
    PositionIn(x, rootType, rootValue, Walk(x.env, rootType, ss, {}, x.incremental).nodes, [], path)
  }

  /** Executing an operation always ends in data. */
  function Response(x: Exec, rootType: string, rootValue: PyValue, ss: seq<Selection>, mutation: bool): Json
    requires Finite(x)
  {
    ExecuteOperation(x, rootType, rootValue, ss, mutation).ending.json
  }

  lemma ResponseIsLocal(x: Exec, rootType: string, rootValue: PyValue, ss: seq<Selection>, mutation: bool, path: Path)
    requires Finite(x)
    requires OperationPosition(x, rootType, rootValue, ss, path).Some?
    requires DataAt(Response(x, rootType, rootValue, ss, mutation), path).Some?
    ensures var p := OperationPosition(x, rootType, rootValue, ss, path).value;
            p.nodes != [] && Outcome(x, p).ending == Data(DataAt(Response(x, rootType, rootValue, ss, mutation),
                path).value)
  {
    var nodes := Walk(x.env, rootType, ss, {}, x.incremental).nodes;
    var field := FieldPosition(x, rootType, rootValue, nodes, [], path[0].key).value;
    AllKeys(nodes);
    ObjectDataIsLocal(x, rootType, rootValue, nodes, [], mutation, path[0].key);
    FieldIsPosition(x, rootType, rootValue, nodes, [], path[0].key);
    DataIsLocal(x, field, path[1..]);
  }

  lemma {:induction false} NonNullNeverNull(x: Exec, p: Position)
    requires Finite(x) && p.nodes != [] && p.t.NonNull?
    ensures Outcome(x, p).ending != Data(JNull)
  {
    if p.raw.Returned? { Stripped(x, p.t, p.nodes, p.path, p.raw.value); }
  }

  /** Non-null soundness: whatever resolvers, serializers and type resolution do, response data holds
      no null at a position whose runtime type is non-null. */
  lemma NonNullSoundness(x: Exec, rootType: string, rootValue: PyValue, ss: seq<Selection>, mutation: bool, path: Path)
    requires Finite(x)
    requires OperationPosition(x, rootType, rootValue, ss, path).Some?
    requires DataAt(Response(x, rootType, rootValue, ss, mutation), path) == Some(JNull)
    ensures !OperationPosition(x, rootType, rootValue, ss, path).value.t.NonNull?
  {
    ResponseIsLocal(x, rootType, rootValue, ss, mutation, path);
    var p := OperationPosition(x, rootType, rootValue, ss, path).value;
    if p.t.NonNull? { NonNullNeverNull(x, p); }
  }

  /** A bubble chain starts at the field `key` of the object at `path`. */
  ghost predicate FieldChain(x: Exec, objectType: string, source: PyValue, nodes: seq<Selection>, path: Path,
      key: string)
  {
    var field := FieldPosition(x, objectType, source, nodes, path, key);
    field.Some? && BubbleChain(x, field.value)
  }

  ghost predicate SomeFieldChain(x: Exec, objectType: string, source: PyValue, nodes: seq<Selection>, path: Path) {
    exists key :: FieldChain(x, objectType, source, nodes, path, key)
  }

  /** The whole response is null exactly when a bubble chain starts at a root field. */
  lemma ResponseNullExactly(x: Exec, rootType: string, rootValue: PyValue, ss: seq<Selection>, mutation: bool)
    requires Finite(x)
    ensures var nodes := Walk(x.env, rootType, ss, {}, x.incremental).nodes;
            Response(x, rootType, rootValue, ss, mutation).JNull? <==> SomeFieldChain(x, rootType, rootValue, nodes, [])
  {
    var nodes := Walk(x.env, rootType, ss, {}, x.incremental).nodes;
    AllKeys(nodes);
    FieldsBubbleExactly(x, rootType, rootValue, nodes, [], mutation);
  }

  /** An object's fields bubble exactly when a bubble chain starts at one of them. */
  lemma FieldsBubbleExactly(x: Exec, objectType: string, source: PyValue, nodes: seq<Selection>, path: Path,
      serial: bool)
    requires Finite(x) && KeysOf(Keys(nodes), nodes)
    ensures ExecuteFields(x, objectType, source, nodes, Keys(nodes), path, serial).ending.Bubble?
            <==> SomeFieldChain(x, objectType, source, nodes, path)
  {
    ObjectBubbles(x, objectType, source, nodes, path, serial);
    if key :| FieldBubbles(x, objectType, source, nodes, path, key) {
      BubblesExactly(x, FieldPosition(x, objectType, source, nodes, path, key).value);
      assert FieldChain(x, objectType, source, nodes, path, key);
    }
    if key :| FieldChain(x, objectType, source, nodes, path, key) {
      BubblesExactly(x, FieldPosition(x, objectType, source, nodes, path, key).value);
      assert FieldBubbles(x, objectType, source, nodes, path, key);
    }
  }

  /** A nullable list does not absorb a bubble: one null item of a non-null item type makes the list
      itself bubble, here to the enclosing object position, although its own type admits null. */
  lemma NullableListBubbles(x: Exec, u: TypeRef, nodes: seq<Selection>, path: Path, items: seq<PyValue>, i: nat)
    requires Finite(x) && nodes != [] && i < |Shown(x, nodes, items)| && items[i].PyNull?
             && !CrashesAt(x, ListType(NonNull(u)), nodes, PyList(items))
    ensures CompleteValue(x, ListType(NonNull(u)), nodes, path, PyList(items)).ending.Bubble?
  {
    var p := Position(ListType(NonNull(u)), nodes, path, Returned(PyList(items)), false);
    var child := Child(x, p, Index(i)).value;
    assert BubbleFrom(x, child, []);
    ChildSettled(x, p, Index(i));
    ChainBubbles(x, child, []);
    assert ChildBubbles(x, p, Index(i));
    ConductedBubble(x, p);
  }
}
