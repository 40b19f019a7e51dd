/** Concurrent execution: sibling fields and list items as interleaved tasks (`asyncio.gather`), the root
    fields of a mutation one after the other. Every interleaving of a non-incremental operation ends with the
    same data and the same errors. */
module Schedule {
  import opened Ast
  import opened Arguments
  import opened CollectFields
  import opened Executor
  import opened NullPropagation
  import opened Runs

  /** A coroutine at rest: not yet started, about to complete a resolver's value, awaiting what it
      spawned, or finished. */
  datatype Task =
    | StartField(objectType: string, source: PyValue, nodes: seq<Selection>, path: Path)
    | Completing(t: TypeRef, nodes: seq<Selection>, path: Path, value: PyValue)
    | AwaitNonNull(path: Path, value: PyValue, inner: Task)
    | AwaitItems(items: seq<Task>)
    | AwaitFields(keys: seq<string>, fields: seq<Task>, serial: bool)
    | Finished(ending: Ending)

  /** Serializers and runtime type resolution fail only with GraphQL errors. */
  ghost predicate Tame(w: World) {
    && (forall n, v :: w.serialize(n, v) != Crashed)
    && (forall n, v :: w.runtimeType(n, v) != RuntimeCrashed)
  }

  ghost predicate Steady(x: Exec) { Ready(x) && Tame(x.world) }

  lemma {:induction false} NeverCrashes(x: Exec, t: TypeRef, nodes: seq<Selection>, path: Path, value: PyValue)
    requires Steady(x) && nodes != []
    ensures !CompleteValue(x, t, nodes, path, value).ending.Crash?
  {
    CrashExact(x, t, nodes, path, value);
    NoCrashes(x, t, nodes, value);
  }

  lemma {:induction false} NoCrashes(x: Exec, t: TypeRef, nodes: seq<Selection>, value: PyValue)
    requires Steady(x)
    ensures !CrashesAt(x, t, nodes, value)
  {
    match t
    case NonNull(u) => NoCrashes(x, u, nodes, value);
    case ListType(u) => forall v: PyValue ensures !CrashesAt(x, u, nodes, v) { NoCrashes(x, u, nodes, v); }
    case NamedType(name) =>
  }

  // ----- one step -----------------------------------------------------------------------

  /** What one step leaves and what it appends to the shared error list. */
  datatype Move = Move(task: Task, log: seq<Error>)

  function Ended(out: Out): Move { Move(Finished(out.ending), out.errors) }

  /** Running a field coroutine up to its value. */
  function StartStep(x: Exec, objectType: string, source: PyValue, nodes: seq<Selection>, path: Path): Move
    requires nodes != []
  {
    var node := nodes[0];
    if !node.Field? then Ended(Plain(Data(JNull), []))
    else if node.name == "__typename" then Ended(Plain(Data(JName(objectType)), []))
    else if node.name !in FieldTypes(x.env, objectType) then Ended(Plain(Data(JNull), []))
    else
      var t := FieldTypes(x.env, objectType)[node.name];
      match x.world.resolve(objectType, node.name, ArgumentsMap(node.arguments), source, path)
      case Raised(preset) => Ended(Plain(NullOrBubble(t), [Error(Located(preset, path), ResolverFailed)]))
      case Returned(value) => Move(Completing(t, nodes, path, value), [])
  }

  function SpawnItems(t: TypeRef, nodes: seq<Selection>, path: Path, items: seq<PyValue>): seq<Task> {
    seq(|items|, i requires 0 <= i < |items| => Completing(t, nodes, path + [Index(i)], items[i]))
  }

  function SpawnFields(objectType: string, source: PyValue, nodes: seq<Selection>, keys: seq<string>,
      path: Path): seq<Task>
  {
    seq(|keys|, i requires 0 <= i < |keys| =>
        StartField(objectType, source, Under(nodes, keys[i]), path + [Key(keys[i])]))
  }

  /** One level of value completion. */
  function CompleteStep(x: Exec, t: TypeRef, nodes: seq<Selection>, path: Path, value: PyValue): Move {
    match t
    case NonNull(u) => Move(AwaitNonNull(path, value, Completing(u, nodes, path, value)), [])
    case ListType(u) =>
      if value.PyNull? then Ended(Plain(Data(JNull), []))
      else if !value.PyList? then Ended(Plain(Data(JNull), [Error(path, ExpectedList)]))
      else Move(AwaitItems(SpawnItems(u, nodes, path, value.items)), [])
    case NamedType(name) =>
      if value.PyNull? then Ended(Plain(Data(JNull), []))
      else if IsLeaf(x.env, name) then Ended(CompleteLeaf(x, name, path, value))
      else if IsComposite(x.env, name) then
        match ConcreteType(x, name, value)
        case RuntimeCrashed => Ended(Plain(Crash, []))
        case Inferred(None) => Ended(Plain(Data(JNull), [Error(path, NoRuntimeType)]))
        case Inferred(Some(objectType)) =>
          var sub := SubWalk(x, objectType, nodes).nodes;
          Move(AwaitFields(Keys(sub), SpawnFields(objectType, value, sub, Keys(sub), path), false), [])
      else Ended(Plain(Data(JNull), []))
  }

  predicate AllFinished(tasks: seq<Task>) { forall t <- tasks :: t.Finished? }

  function Endings(tasks: seq<Task>): (outs: seq<Out>)
    requires AllFinished(tasks)
    ensures |outs| == |tasks| && forall i | 0 <= i < |tasks| :: outs[i] == Plain(tasks[i].ending, [])
  {
    seq(|tasks|, i requires 0 <= i < |tasks| => Plain(tasks[i].ending, []))
  }

  predicate NoneCrashed(tasks: seq<Task>)
    requires AllFinished(tasks)
  {
    forall t <- tasks :: !t.ending.Crash?
  }

  /** Fields awaited one after the other get to the one at `i` once those before it have ended in data. */
  predicate Turn(fields: seq<Task>, i: nat, serial: bool) {
    i < |fields| && (serial ==> forall j | 0 <= j < i :: fields[j].Finished? && !fields[j].ending.Bubble?)
  }

  /** A bubble that was got to ends fields awaited one after the other; the rest never start. */
  predicate StoppedAt(fields: seq<Task>, i: nat) {
    Turn(fields, i, true) && fields[i].Finished? && fields[i].ending.Bubble?
  }

  /** The event loop runs one ready coroutine inside `a` for one step. */
  ghost predicate Steps(x: Exec, a: Task, b: Task, log: seq<Error>)
    decreases a
  {
    match a
    case StartField(objectType, source, nodes, path) =>
        nodes != [] && Move(b, log) == StartStep(x, objectType, source, nodes, path)
    case Completing(t, nodes, path, value) => Move(b, log) == CompleteStep(x, t, nodes, path, value)
    case AwaitNonNull(path, value, inner) =>
      if inner.Finished? then Move(b, log) == Ended(NotNull(path, value, Plain(inner.ending, [])))
      else b.AwaitNonNull? && b == a.(inner := b.inner) && Steps(x, inner, b.inner, log)
    case AwaitItems(items) =>
      || (AllFinished(items) && Move(b, log) == Ended(JoinItems(Endings(items))))
      || (b.AwaitItems? && |b.items| == |items| &&
          exists i | 0 <= i < |items| :: b.items == items[i := b.items[i]] && Steps(x, items[i], b.items[i], log))
    case AwaitFields(keys, fields, serial) =>
      || (AllFinished(fields) && |keys| == |fields| && NoneCrashed(fields)
          && Move(b, log) == Ended(Gathered(JoinFields(keys, Endings(fields), serial))))
      || (serial && (exists i: nat :: StoppedAt(fields, i)) && Move(b, log) == Ended(Gathered(Plain(Bubble, []))))
      || (b.AwaitFields? && b.keys == keys && b.serial == serial && |b.fields| == |fields| &&
          exists i | 0 <= i < |fields| ::
            Turn(fields, i, serial) && b.fields == fields[i := b.fields[i]] && Steps(x, fields[i], b.fields[i], log))
    case Finished(_) => false
  }

  /** Whatever order tasks were spawned in, any list item and any field that can step may be the next to do so;
      fields of a mutation only when those before have ended in data. */
  lemma SiblingsInterleave(x: Exec, keys: seq<string>, tasks: seq<Task>, i: nat, next: Task, log: seq<Error>)
    requires i < |tasks| && Steps(x, tasks[i], next, log)
    ensures Steps(x, AwaitItems(tasks), AwaitItems(tasks[i := next]), log)
    ensures Steps(x, AwaitFields(keys, tasks, false), AwaitFields(keys, tasks[i := next], false), log)
    ensures (forall j | 0 <= j < i :: tasks[j].Finished? && tasks[j].ending.Data?) ==>
              Steps(x, AwaitFields(keys, tasks, true), AwaitFields(keys, tasks[i := next], true), log)
  {
    var after := tasks[i := next];
    assert after[i] == next && after == tasks[i := after[i]];
  }

  function Gathered(out: Out): Out { out.(ending := Absorbed(out.ending)) }

  // ----- where a task leads ------------------------------------------------------------------

  predicate TaskOk(x: Exec, a: Task) {
    match a
    case StartField(_, _, nodes, _) => nodes != []
    case Completing(_, nodes, _, _) => nodes != []
    case AwaitNonNull(_, _, inner) => TaskOk(x, inner)
    case AwaitItems(items) => forall t <- items :: TaskOk(x, t)
    case AwaitFields(keys, fields, _) => |keys| == |fields| && forall t <- fields :: TaskOk(x, t)
    case Finished(ending) => !ending.Crash?
  }

  /** What the task ends with, and what it has still to report, when run without interruption. */
  ghost function Final(x: Exec, a: Task): (out: Out)
    requires Steady(x) && TaskOk(x, a)
    ensures !out.ending.Crash?
    decreases a
  {
    match a
    case StartField(objectType, source, nodes, path) => ExecuteField(x, objectType, source, nodes, path)
    case Completing(t, nodes, path, value) =>
        NeverCrashes(x, t, nodes, path, value); CompleteValue(x, t, nodes, path, value)
    case AwaitNonNull(path, value, inner) => NotNull(path, value, Final(x, inner))
    case AwaitItems(items) =>
      var outs := seq(|items|, i requires 0 <= i < |items| => Final(x, items[i]));
      JoinedItems(outs);
      JoinItems(outs)
    case AwaitFields(keys, fields, serial) =>
      Gathered(JoinFields(keys, seq(|fields|, i requires 0 <= i < |fields| => Final(x, fields[i])), serial))
    case Finished(ending) => Plain(ending, [])
  }

  ghost function Finals(x: Exec, tasks: seq<Task>): (outs: seq<Out>)
    requires Steady(x) && forall t <- tasks :: TaskOk(x, t)
    ensures |outs| == |tasks| && forall i | 0 <= i < |tasks| :: outs[i] == Final(x, tasks[i])
    ensures forall o <- outs :: !o.ending.Crash?
  {
    seq(|tasks|, i requires 0 <= i < |tasks| => Final(x, tasks[i]))
  }

  /** Same ending; the reports of `before` are `log` and then those of `after`, in some order. */
  predicate Preserves(before: Out, after: Out, log: seq<Error>) {
    before.ending == after.ending && multiset(before.errors) == multiset(log) + multiset(after.errors)
  }

  lemma {:induction false} JoinItemsPreserves(outs: seq<Out>, i: nat, after: Out, log: seq<Error>)
    requires i < |outs| && Preserves(outs[i], after, log)
    ensures Preserves(JoinItems(outs), JoinItems(outs[i := after]), log)
  {
    if i == 0 {
      assert outs[0 := after][1..] == outs[1..];
    } else {
      assert outs[i := after][1..] == outs[1..][i - 1 := after];
      JoinItemsPreserves(outs[1..], i - 1, after, log);
    }
  }

  lemma {:induction false} JoinFieldsPreserves(
    keys: seq<string>, outs: seq<Out>, serial: bool, i: nat, after: Out, log: seq<Error>)
    requires |keys| == |outs| && (forall o <- outs :: !o.ending.Crash?) && !after.ending.Crash?
    requires i < |outs| && Preserves(outs[i], after, log)
    requires serial ==> forall j | 0 <= j < i :: !outs[j].ending.Bubble?
    ensures Preserves(JoinFields(keys, outs, serial), JoinFields(keys, outs[i := after], serial), log)
    decreases |keys|
  {
    if i == 0 {
      assert outs[0 := after][1..] == outs[1..];
    } else {
      assert outs[i := after][1..] == outs[1..][i - 1 := after];
      JoinFieldsPreserves(keys[1..], outs[1..], serial, i - 1, after, log);
    }
  }

  /** Joined one after the other, fields end in the first bubble. */
  lemma {:induction false} SerialStops(keys: seq<string>, outs: seq<Out>, i: nat)
    requires |keys| == |outs| && (forall o <- outs :: !o.ending.Crash?) && i < |outs| && outs[i].ending.Bubble?
    requires forall j | 0 <= j <= i :: outs[j].errors == [] && (j < i ==> !outs[j].ending.Bubble?)
    ensures JoinFields(keys, outs, true).ending.Bubble? && JoinFields(keys, outs, true).errors == []
    decreases |keys|
  {
    if i > 0 { SerialStops(keys[1..], outs[1..], i - 1); }
  }

  lemma {:induction false} JoinItemsQuiet(outs: seq<Out>)
    requires forall o <- outs :: o.errors == []
    ensures JoinItems(outs).errors == []
  {
    if outs != [] { JoinItemsQuiet(outs[1..]); }
  }

  lemma {:induction false} JoinFieldsQuiet(keys: seq<string>, outs: seq<Out>, serial: bool)
    requires |keys| == |outs| && forall o <- outs :: !o.ending.Crash? && o.errors == []
    ensures JoinFields(keys, outs, serial).errors == []
    decreases |keys|
  {
    if keys != [] { JoinFieldsQuiet(keys[1..], outs[1..], serial); }
  }

  lemma StartPreserves(x: Exec, a: Task, b: Task, log: seq<Error>)
    requires Steady(x) && TaskOk(x, a) && Steps(x, a, b, log) && a.StartField?
    ensures TaskOk(x, b) && Preserves(Final(x, a), Final(x, b), log)
  {
    if b.Completing? {
      NeverCrashes(x, b.t, b.nodes, b.path, b.value);
    }
  }

  lemma CompletePreserves(x: Exec, a: Task, b: Task, log: seq<Error>)
    requires Steady(x) && TaskOk(x, a) && Steps(x, a, b, log) && a.Completing?
    ensures TaskOk(x, b) && Preserves(Final(x, a), Final(x, b), log)
  {
    NeverCrashes(x, a.t, a.nodes, a.path, a.value);
    match a.t
    case NonNull(u) => NeverCrashes(x, u, a.nodes, a.path, a.value);
    case ListType(u) =>
      if a.value.PyList? { ItemsSpawned(x, u, a.nodes, a.path, a.value.items); }
    case NamedType(name) =>
      if !a.value.PyNull? && !IsLeaf(x.env, name) && IsComposite(x.env, name)
          && Infers(ConcreteType(x, name, a.value)) {
        var objectType := ConcreteType(x, name, a.value).name.value;
        FieldsSpawned(x, objectType, a.value, SubWalk(x, objectType, a.nodes).nodes, a.path, false);
        assert DeferJobs(objectType, a.value, a.path, []) == [];
      }
  }

  lemma ItemsSpawned(x: Exec, u: TypeRef, nodes: seq<Selection>, path: Path, items: seq<PyValue>)
    requires Steady(x) && nodes != []
    ensures var b := AwaitItems(SpawnItems(u, nodes, path, items));
            && TaskOk(x, b)
            && Final(x, b) == CompleteItems(x, u, nodes, path, items, 0)
            && items[..|items|] == items
  {
    var b := AwaitItems(SpawnItems(u, nodes, path, items));
    assert seq(|b.items|, i requires 0 <= i < |b.items| => Final(x, b.items[i]))
        == ItemOuts(x, u, nodes, path, items, 0);
    ItemsJoin(x, u, nodes, path, items, 0);
  }

  lemma FieldsSpawned(x: Exec, objectType: string, source: PyValue, nodes: seq<Selection>, path: Path, serial: bool)
    requires Steady(x)
    ensures KeysOf(Keys(nodes), nodes)
    ensures var b := AwaitFields(Keys(nodes), SpawnFields(objectType, source, nodes, Keys(nodes), path), serial);
            && TaskOk(x, b)
            && Final(x, b) == Gathered(ExecuteFields(x, objectType, source, nodes, Keys(nodes), path, serial))
  {
    AllKeys(nodes);
    var b := AwaitFields(Keys(nodes), SpawnFields(objectType, source, nodes, Keys(nodes), path), serial);
    assert forall i | 0 <= i < |b.keys| :: Under(nodes, b.keys[i]) != [] by {
      assert forall i | 0 <= i < |b.keys| :: b.keys[i] in b.keys;
    }
    assert seq(|b.fields|, i requires 0 <= i < |b.fields| => Final(x, b.fields[i]))
        == FieldOuts(x, objectType, source, nodes, Keys(nodes), path);
    FieldsJoin(x, objectType, source, nodes, Keys(nodes), path, serial);
  }

  /** No step changes where the task leads: what it will end with and all it will have reported. */
  lemma {:induction false} StepPreserves(x: Exec, a: Task, b: Task, log: seq<Error>)
    requires Steady(x) && TaskOk(x, a) && Steps(x, a, b, log)
    ensures TaskOk(x, b) && Preserves(Final(x, a), Final(x, b), log)
    decreases a
  {
    match a
    case StartField(_, _, _, _) => StartPreserves(x, a, b, log);
    case Completing(_, _, _, _) => CompletePreserves(x, a, b, log);
    case AwaitNonNull(path, value, inner) => if !inner.Finished? { StepPreserves(x, inner, b.inner, log); }
    case AwaitItems(items) => ItemsPreserve(x, a, b, log);
    case AwaitFields(_, _, _) => FieldsPreserve(x, a, b, log);
    case Finished(_) =>
  }

  lemma FinalItems(x: Exec, items: seq<Task>)
    requires Steady(x) && TaskOk(x, AwaitItems(items))
    ensures Final(x, AwaitItems(items)) == JoinItems(Finals(x, items))
  {
    assert seq(|items|, i requires 0 <= i < |items| => Final(x, items[i])) == Finals(x, items);
  }

  lemma FinalFields(x: Exec, keys: seq<string>, fields: seq<Task>, serial: bool)
    requires Steady(x) && TaskOk(x, AwaitFields(keys, fields, serial))
    ensures Final(x, AwaitFields(keys, fields, serial)) == Gathered(JoinFields(keys, Finals(x, fields), serial))
  {
    assert seq(|fields|, i requires 0 <= i < |fields| => Final(x, fields[i])) == Finals(x, fields);
  }

  lemma OneMoved(x: Exec, tasks: seq<Task>, i: nat, c: Task)
    requires Steady(x) && (forall t <- tasks :: TaskOk(x, t)) && TaskOk(x, c) && i < |tasks|
    ensures forall t <- tasks[i := c] :: TaskOk(x, t)
    ensures Finals(x, tasks[i := c]) == Finals(x, tasks)[i := Final(x, c)]
  {
  }

  lemma AllEnded(x: Exec, tasks: seq<Task>)
    requires Steady(x) && (forall t <- tasks :: TaskOk(x, t)) && AllFinished(tasks)
    ensures Finals(x, tasks) == Endings(tasks)
    ensures forall o <- Endings(tasks) :: !o.ending.Crash? && o.errors == []
  {
    forall i | 0 <= i < |tasks| ensures Finals(x, tasks)[i] == Endings(tasks)[i] {
      assert tasks[i] in tasks;
    }
  }

  lemma {:induction false} ItemsPreserve(x: Exec, a: Task, b: Task, log: seq<Error>)
    requires Steady(x) && TaskOk(x, a) && Steps(x, a, b, log) && a.AwaitItems?
    ensures TaskOk(x, b) && Preserves(Final(x, a), Final(x, b), log)
    decreases a, 0
  {
    FinalItems(x, a.items);
    if b.AwaitItems? {
      var i :| 0 <= i < |a.items| && b.items == a.items[i := b.items[i]] && Steps(x, a.items[i], b.items[i], log);
      StepPreserves(x, a.items[i], b.items[i], log);
      OneMoved(x, a.items, i, b.items[i]);
      JoinItemsPreserves(Finals(x, a.items), i, Final(x, b.items[i]), log);
      FinalItems(x, b.items);
    } else {
      AllEnded(x, a.items);
      JoinItemsQuiet(Endings(a.items));
      JoinedItems(Endings(a.items));
    }
  }

  lemma {:induction false} FieldsPreserve(x: Exec, a: Task, b: Task, log: seq<Error>)
    requires Steady(x) && TaskOk(x, a) && Steps(x, a, b, log) && a.AwaitFields?
    ensures TaskOk(x, b) && Preserves(Final(x, a), Final(x, b), log)
    decreases a, 0
  {
    if b.AwaitFields? {
      var i :| 0 <= i < |a.fields| && Turn(a.fields, i, a.serial)
               && b.fields == a.fields[i := b.fields[i]] && Steps(x, a.fields[i], b.fields[i], log);
      StepPreserves(x, a.fields[i], b.fields[i], log);
      FieldMoved(x, a, i, b.fields[i], log);
    } else if a.serial && exists i: nat :: StoppedAt(a.fields, i) {
      var i: nat :| StoppedAt(a.fields, i);
      FieldsStopped(x, a, i);
    } else {
      FieldsEnded(x, a);
    }
  }

  lemma FieldMoved(x: Exec, a: Task, i: nat, c: Task, log: seq<Error>)
    requires Steady(x) && TaskOk(x, a) && a.AwaitFields? && Turn(a.fields, i, a.serial) && TaskOk(x, c)
    requires TaskOk(x, a.fields[i]) && Preserves(Final(x, a.fields[i]), Final(x, c), log)
    ensures var b := AwaitFields(a.keys, a.fields[i := c], a.serial);
            TaskOk(x, b) && Preserves(Final(x, a), Final(x, b), log)
  {
    OneMoved(x, a.fields, i, c);
    FinalFields(x, a.keys, a.fields, a.serial);
    FinalFields(x, a.keys, a.fields[i := c], a.serial);
    JoinFieldsPreserves(a.keys, Finals(x, a.fields), a.serial, i, Final(x, c), log);
  }

  lemma FieldsEnded(x: Exec, a: Task)
    requires Steady(x) && TaskOk(x, a) && a.AwaitFields? && AllFinished(a.fields)
    ensures Finals(x, a.fields) == Endings(a.fields) && Final(x, a).errors == []
    ensures Final(x, a) == Gathered(JoinFields(a.keys, Finals(x, a.fields), a.serial))
  {
    FinalFields(x, a.keys, a.fields, a.serial);
    AllEnded(x, a.fields);
    JoinFieldsQuiet(a.keys, Endings(a.fields), a.serial);
  }

  lemma FieldsStopped(x: Exec, a: Task, i: nat)
    requires Steady(x) && TaskOk(x, a) && a.AwaitFields? && a.serial && StoppedAt(a.fields, i)
    ensures Final(x, a).ending == Gathered(Plain(Bubble, [])).ending && Final(x, a).errors == []
    ensures AllFinished(a.fields) ==> JoinFields(a.keys, Finals(x, a.fields), true).ending.Bubble?
    ensures AllFinished(a.fields) ==> Finals(x, a.fields) == Endings(a.fields)
  {
    FinalFields(x, a.keys, a.fields, a.serial);
    SerialStops(a.keys, Finals(x, a.fields), i);
    if AllFinished(a.fields) { AllEnded(x, a.fields); }
  }

  // ----- whole runs -----------------------------------------------------------------------------

  /** The task an operation starts with: its root fields side by side, a mutation's one after the other. */
  function Launch(x: Exec, rootType: string, rootValue: PyValue, ss: seq<Selection>, mutation: bool): Task {
    var nodes := Walk(x.env, rootType, ss, {}, x.incremental).nodes;
    AwaitFields(Keys(nodes), SpawnFields(rootType, rootValue, nodes, Keys(nodes), []), mutation)
  }

  /** A running operation: its task tree and the shared error list so far. */
  datatype Progress = Progress(task: Task, log: seq<Error>)

  ghost predicate Advances(x: Exec, a: Progress, b: Progress) {
    a.log <= b.log && Steps(x, a.task, b.task, b.log[|a.log|..])
  }

  /** `out` is what the operation ends with and reports from here on, given what it has reported. */
  ghost predicate Heading(x: Exec, p: Progress, out: Out) {
    && Steady(x) && TaskOk(x, p.task)
    && Final(x, p.task).ending == out.ending
    && multiset(p.log) + multiset(Final(x, p.task).errors) == multiset(out.errors)
  }

  lemma AdvanceKeepsHeading(x: Exec, a: Progress, b: Progress, out: Out)
    requires Heading(x, a, out) && Advances(x, a, b)
    ensures Heading(x, b, out)
  {
    StepPreserves(x, a.task, b.task, b.log[|a.log|..]);
    assert b.log == a.log + b.log[|a.log|..];
  }

  /** Schedule independence: however the coroutines of an operation interleave, a finished run holds the
      same data, key order included, and has reported the same errors the same number of times. */
  lemma ScheduleIndependence(x: Exec, rootType: string, rootValue: PyValue, ss: seq<Selection>, mutation: bool,
                             ending: Ending, log: seq<Error>, steps: nat)
    requires Steady(x)
    requires Run((a, b) => Advances(x, a, b), Progress(Launch(x, rootType, rootValue, ss, mutation), []),
                 Progress(Finished(ending), log), steps)
    ensures var out := ExecuteOperation(x, rootType, rootValue, ss, mutation);
            ending == out.ending && multiset(log) == multiset(out.errors)
  {
    var out := ExecuteOperation(x, rootType, rootValue, ss, mutation);
    var start := Progress(Launch(x, rootType, rootValue, ss, mutation), []);
    LaunchHeads(x, rootType, rootValue, ss, mutation);
    HeadingKept(x, start, Progress(Finished(ending), log), steps, out);
  }

  lemma LaunchHeads(x: Exec, rootType: string, rootValue: PyValue, ss: seq<Selection>, mutation: bool)
    requires Steady(x)
    ensures Heading(x, Progress(Launch(x, rootType, rootValue, ss, mutation), []),
                    ExecuteOperation(x, rootType, rootValue, ss, mutation))
  {
    FieldsSpawned(x, rootType, rootValue, Walk(x.env, rootType, ss, {}, false).nodes, [], mutation);
  }

  lemma HeadingKept(x: Exec, a: Progress, b: Progress, steps: nat, out: Out)
    requires Heading(x, a, out) && Run((p, q) => Advances(x, p, q), a, b, steps)
    ensures Heading(x, b, out)
  {
    forall p, q | Heading(x, p, out) && Advances(x, p, q) ensures Heading(x, q, out) {
      AdvanceKeepsHeading(x, p, q, out);
    }
    RunKeeps((p, q) => Advances(x, p, q), p => Heading(x, p, out), a, b, steps);
  }

  /** No deadlock: a task that has not finished can take a step. */
  lemma {:induction false} CanStep(x: Exec, a: Task) returns (b: Task, log: seq<Error>)
    requires Steady(x) && TaskOk(x, a) && !a.Finished?
    ensures Steps(x, a, b, log)
    decreases a
  {
    match a
    case StartField(objectType, source, nodes, path) =>
      var m := StartStep(x, objectType, source, nodes, path);
      b, log := m.task, m.log;
    case Completing(t, nodes, path, value) =>
      var m := CompleteStep(x, t, nodes, path, value);
      b, log := m.task, m.log;
    case AwaitNonNull(path, value, inner) =>
      if inner.Finished? {
        var m := Ended(NotNull(path, value, Plain(inner.ending, [])));
        b, log := m.task, m.log;
      } else {
        var c, l := CanStep(x, inner);
        b, log := AwaitNonNull(path, value, c), l;
      }
    case AwaitItems(items) =>
      if AllFinished(items) {
        var m := Ended(JoinItems(Endings(items)));
        b, log := m.task, m.log;
      } else {
        var i :| 0 <= i < |items| && !items[i].Finished?;
        var c, l := CanStep(x, items[i]);
        b, log := AwaitItems(items[i := c]), l;
        assert b.items == items[i := b.items[i]] && Steps(x, items[i], b.items[i], log);
      }
    case AwaitFields(keys, fields, serial) =>
      if AllFinished(fields) {
        AllEnded(x, fields);
        var m := Ended(Gathered(JoinFields(keys, Endings(fields), serial)));
        b, log := m.task, m.log;
      } else {
        var i := NextTurn(fields);
        if serial && StoppedAt(fields, i) {
          var m := Ended(Gathered(Plain(Bubble, [])));
          b, log := m.task, m.log;
        } else {
          var k: nat :| k < |fields| && Turn(fields, k, serial) && !fields[k].Finished?;
          var c, l := CanStep(x, fields[k]);
          b, log := AwaitFields(keys, fields[k := c], serial), l;
          assert b.fields == fields[k := b.fields[k]] && Steps(x, fields[k], b.fields[k], log);
        }
      }
  }

  /** Of fields that have not all finished, the first that has not or has bubbled. */
  lemma {:induction false} NextTurn(fields: seq<Task>) returns (i: nat)
    requires !AllFinished(fields)
    ensures Turn(fields, i, true) && (fields[i].Finished? ==> fields[i].ending.Bubble?)
  {
    if !fields[0].Finished? || fields[0].ending.Bubble? {
      i := 0;
    } else {
      assert fields == [fields[0]] + fields[1..];
      i := NextTurn(fields[1..]);
      i := i + 1;
      assert forall j | 0 < j < i :: fields[j] == fields[1..][j - 1];
    }
  }

  // ----- every run ends ---------------------------------------------------------------------------

  function WorkField(x: Exec, objectType: string, source: PyValue, nodes: seq<Selection>, path: Path): nat
    requires Finite(x) && nodes != []
    decreases Size(nodes, x.weight), 1
  {
    match StartStep(x, objectType, source, nodes, path).task
    case Completing(t, _, _, value) => 1 + WorkValue(x, t, nodes, path, value)
    case _ => 1
  }

  function WorkValue(x: Exec, t: TypeRef, nodes: seq<Selection>, path: Path, value: PyValue): nat
    requires Finite(x) && nodes != []
    decreases Size(nodes, x.weight), 0, t, 0
  {
    match t
    case NonNull(u) => 2 + WorkValue(x, u, nodes, path, value)
    case ListType(u) => if value.PyList? then 2 + WorkItems(x, u, nodes, path, value.items, 0) else 1
    case NamedType(name) =>
      if !value.PyNull? && !IsLeaf(x.env, name) && IsComposite(x.env, name) && Infers(ConcreteType(x, name, value)) then
        var objectType := ConcreteType(x, name, value).name.value;
        var sub := SubWalk(x, objectType, nodes).nodes;
        SubWalkSize(x, objectType, nodes);
        AllKeys(sub);
        2 + WorkFields(x, objectType, value, sub, Keys(sub), path)
      else 1
  }

  function WorkItems(x: Exec, t: TypeRef, nodes: seq<Selection>, path: Path, items: seq<PyValue>, from: nat): nat
    requires Finite(x) && nodes != []
    decreases Size(nodes, x.weight), 0, t, 1 + |items|
  {
    if items == [] then 0
    else WorkValue(x, t, nodes, path + [Index(from)], items[0]) + WorkItems(x, t, nodes, path, items[1..], from + 1)
  }

  function WorkFields(x: Exec, objectType: string, source: PyValue, nodes: seq<Selection>, keys: seq<string>,
      path: Path): nat
    requires Finite(x) && KeysOf(keys, nodes)
    decreases Size(nodes, x.weight), 2, |keys|
  {
    if keys == [] then 0
    else
      SizeUnder(nodes, keys[0], x.weight);
      WorkField(x, objectType, source, Under(nodes, keys[0]), path + [Key(keys[0])])
      + WorkFields(x, objectType, source, nodes, keys[1..], path)
  }

  /** How many steps the task has still to take. */
  function Work(x: Exec, a: Task): nat
    requires Finite(x) && TaskOk(x, a)
    decreases a, 0
  {
    match a
    case StartField(objectType, source, nodes, path) => WorkField(x, objectType, source, nodes, path)
    case Completing(t, nodes, path, value) => WorkValue(x, t, nodes, path, value)
    case AwaitNonNull(_, _, inner) => 1 + Work(x, inner)
    case AwaitItems(items) => 1 + WorkAll(x, items)
    case AwaitFields(_, fields, _) => 1 + WorkAll(x, fields)
    case Finished(_) => 0
  }

  function WorkAll(x: Exec, tasks: seq<Task>): nat
    requires Finite(x) && forall t <- tasks :: TaskOk(x, t)
    decreases tasks
  {
    if tasks == [] then 0 else Work(x, tasks[0]) + WorkAll(x, tasks[1..])
  }

  lemma {:induction false} WorkAllUpdate(x: Exec, tasks: seq<Task>, i: nat, c: Task)
    requires Finite(x) && (forall t <- tasks :: TaskOk(x, t)) && i < |tasks| && TaskOk(x, c)
    ensures forall t <- tasks[i := c] :: TaskOk(x, t)
    ensures WorkAll(x, tasks[i := c]) == WorkAll(x, tasks) - Work(x, tasks[i]) + Work(x, c)
    decreases i
  {
    if i == 0 {
      assert tasks[0 := c][1..] == tasks[1..];
    } else {
      assert tasks[i := c][1..] == tasks[1..][i - 1 := c];
      WorkAllUpdate(x, tasks[1..], i - 1, c);
    }
  }

  function SpawnItemsFrom(t: TypeRef, nodes: seq<Selection>, path: Path, items: seq<PyValue>, from: nat): seq<Task> {
    seq(|items|, i requires 0 <= i < |items| => Completing(t, nodes, path + [Index(from + i)], items[i]))
  }

  lemma {:induction false} SpawnedItemsWork(x: Exec, t: TypeRef, nodes: seq<Selection>, path: Path, items: seq<PyValue>,
      from: nat)
    requires Finite(x) && nodes != []
    ensures var tasks := SpawnItemsFrom(t, nodes, path, items, from);
            && (forall a <- tasks :: TaskOk(x, a))
            && WorkAll(x, tasks) == WorkItems(x, t, nodes, path, items, from)
    decreases |items|
  {
    if items != [] {
      SpawnedItemsWork(x, t, nodes, path, items[1..], from + 1);
      assert SpawnItemsFrom(t, nodes, path, items, from)[1..] == SpawnItemsFrom(t, nodes, path, items[1..], from + 1);
    }
  }

  lemma {:induction false} SpawnedFieldsWork(x: Exec, objectType: string, source: PyValue, nodes: seq<Selection>,
      keys: seq<string>, path: Path)
    requires Finite(x) && KeysOf(keys, nodes)
    ensures var tasks := SpawnFields(objectType, source, nodes, keys, path);
            && (forall a <- tasks :: TaskOk(x, a))
            && WorkAll(x, tasks) == WorkFields(x, objectType, source, nodes, keys, path)
    decreases |keys|
  {
    if keys != [] {
      SpawnedFieldsWork(x, objectType, source, nodes, keys[1..], path);
      assert SpawnFields(objectType, source, nodes, keys, path)[1..]
          == SpawnFields(objectType, source, nodes, keys[1..], path);
    }
  }

  lemma CompleteWorks(x: Exec, t: TypeRef, nodes: seq<Selection>, path: Path, value: PyValue)
    requires Steady(x) && nodes != []
    ensures var b := CompleteStep(x, t, nodes, path, value).task;
            TaskOk(x, b) && Work(x, b) < WorkValue(x, t, nodes, path, value)
  {
    match t
    case NonNull(u) =>
    case ListType(u) =>
      if value.PyList? {
        SpawnedItemsWork(x, u, nodes, path, value.items, 0);
        assert SpawnItems(u, nodes, path, value.items) == SpawnItemsFrom(u, nodes, path, value.items, 0);
      }
    case NamedType(name) =>
      if !value.PyNull? && !IsLeaf(x.env, name) && IsComposite(x.env, name) && Infers(ConcreteType(x, name, value)) {
        var objectType := ConcreteType(x, name, value).name.value;
        var sub := SubWalk(x, objectType, nodes).nodes;
        AllKeys(sub);
        SpawnedFieldsWork(x, objectType, value, sub, Keys(sub), path);
      }
  }

  /** Every step leaves less work. */
  lemma {:induction false} StepWorks(x: Exec, a: Task, b: Task, log: seq<Error>)
    requires Steady(x) && TaskOk(x, a) && Steps(x, a, b, log)
    ensures TaskOk(x, b) && Work(x, b) < Work(x, a)
    decreases a
  {
    StepPreserves(x, a, b, log);
    match a
    case StartField(_, _, _, _) =>
    case Completing(t, nodes, path, value) => CompleteWorks(x, t, nodes, path, value);
    case AwaitNonNull(path, value, inner) => if !inner.Finished? { StepWorks(x, inner, b.inner, log); }
    case AwaitItems(items) =>
      if b.AwaitItems? {
        var i :| 0 <= i < |items| && b.items == items[i := b.items[i]] && Steps(x, items[i], b.items[i], log);
        StepWorks(x, items[i], b.items[i], log);
        WorkAllUpdate(x, items, i, b.items[i]);
      }
    case AwaitFields(keys, fields, serial) =>
      if b.AwaitFields? {
        var i :| 0 <= i < |fields| && b.fields == fields[i := b.fields[i]] && Steps(x, fields[i], b.fields[i], log);
        StepWorks(x, fields[i], b.fields[i], log);
        WorkAllUpdate(x, fields, i, b.fields[i]);
      }
    case Finished(_) =>
  }

  /** Every run ends: no interleaving takes more steps than the work there is. */
  lemma {:induction false} RunsEnd(x: Exec, a: Progress, b: Progress, steps: nat)
    requires Steady(x) && TaskOk(x, a.task) && Run((p, q) => Advances(x, p, q), a, b, steps)
    ensures steps <= Work(x, a.task)
    decreases steps
  {
    if steps > 0 {
      var mid :| Advances(x, a, mid) && Run((p, q) => Advances(x, p, q), mid, b, steps - 1);
      StepWorks(x, a.task, mid.task, mid.log[|a.log|..]);
      RunsEnd(x, mid, b, steps - 1);
    }
  }
}
