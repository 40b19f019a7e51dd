/** Which errors are recorded: each position reports what happened there, once, and nothing else is
    recorded; errors and nulls explain each other. With incremental delivery it is about one payload. */
module Reports {
  import opened Ast
  import opened CollectFields
  import opened Executor
  import opened NullPropagation

  // ----- what a position reports itself -------------------------------------------------------

  /** What is wrong with a value that is not null, at base type `b`. */
  function BaseReport(x: Exec, b: TypeRef, path: Path, value: PyValue): Option<Error> {
    match b
    case ListType(_) => if value.PyList? then None else Some(Error(path, ExpectedList))
    case NamedType(name) =>
      if IsLeaf(x.env, name) then
        var s := x.world.serialize(name, value);
        if s.Refused? then Some(Error(if s.preset.Some? then s.preset.value else path, LeafRefused)) else None
      else if IsComposite(x.env, name) && ConcreteType(x, name, value) == Inferred(None) then
        Some(Error(path, NoRuntimeType))
      else None
    case NonNull(_) => None
  }

  /** What happened at the position itself: its resolver raised, completing it ran into another exception,
      it gave null where none may be, or its value does not fit its type. */
  function Report(x: Exec, p: Position): Option<Error> {
    match p.raw
    case Raised(preset) => Some(Error(if preset.Some? then preset.value else p.path, ResolverFailed))
    case Returned(value) =>
      if p.caught && CrashesAt(x, p.t, p.nodes, value) then Some(Error(p.path, Unexpected))
      else if value.PyNull? then if p.t.NonNull? then Some(Error(p.path, CannotReturnNull)) else None
      else BaseReport(x, Strip(p.t), p.path, value)
  }

  /** Taking the first step of `rel` before the others is taking `rel`. */
  lemma Onward(path: Path, rel: Path)
    requires rel != []
    ensures path + [rel[0]] + rel[1..] == path + rel
  {
  }

  /** The position at `path` below `p` reports `e`. */
  predicate Reported(x: Exec, p: Position, path: Path, e: Error) {
    PositionAt(x, p, path).Some? && Report(x, PositionAt(x, p, path).value) == Some(e)
  }

  ghost predicate SomeReported(x: Exec, p: Position, e: Error) { exists path :: Reported(x, p, path, e) }

  // ----- errors of parts that are joined --------------------------------------------------------

  predicate ItemError(outs: seq<Out>, i: nat, e: Error) { i < |outs| && e in outs[i].errors }

  /** The errors of a list are those of its items. */
  lemma {:induction false} JoinedItemErrors(outs: seq<Out>, e: Error)
    ensures e in JoinItems(outs).errors <==> exists i: nat :: ItemError(outs, i, e)
  {
    if outs != [] {
      JoinedItemErrors(outs[1..], e);
      if i: nat :| ItemError(outs[1..], i, e) { assert ItemError(outs, i + 1, e); }
      if e in outs[0].errors { assert ItemError(outs, 0, e); }
      if i: nat :| ItemError(outs, i, e) && i > 0 { assert ItemError(outs[1..], i - 1, e); }
    }
  }

  /** Fields executed one after the other get to the one at `i` if none before it bubbles. */
  predicate GetsTo(outs: seq<Out>, serial: bool, i: nat) {
    i < |outs| && (serial ==> forall j | 0 <= j < i :: !outs[j].ending.Bubble?)
  }

  predicate FieldError(outs: seq<Out>, serial: bool, i: nat, e: Error) {
    GetsTo(outs, serial, i) && e in outs[i].errors
  }

  /** The errors of an object are those of the fields executed. */
  lemma {:induction false} JoinedFieldErrors(keys: seq<string>, outs: seq<Out>, serial: bool, e: Error)
    requires |keys| == |outs| && forall o <- outs :: !o.ending.Crash?
    ensures e in JoinFields(keys, outs, serial).errors <==> exists i: nat :: FieldError(outs, serial, i, e)
    decreases |keys|
  {
    if keys != [] {
      JoinedFieldErrors(keys[1..], outs[1..], serial, e);
      if e in outs[0].errors { assert FieldError(outs, serial, 0, e); }
      if i: nat :| FieldError(outs[1..], serial, i, e) {
        if !(serial && outs[0].ending.Bubble?) { FieldErrorLater(outs, serial, i, e); }
      }
      if i: nat :| FieldError(outs, serial, i, e) && i > 0 { FieldErrorLater(outs, serial, i - 1, e); }
    }
  }

  lemma FieldErrorLater(outs: seq<Out>, serial: bool, i: nat, e: Error)
    requires outs != [] && (serial ==> !outs[0].ending.Bubble? || FieldError(outs, serial, i + 1, e))
    ensures FieldError(outs, serial, i + 1, e) <==> FieldError(outs[1..], serial, i, e)
  {
    assert forall j | 0 <= j < |outs| - 1 :: outs[1..][j] == outs[j + 1];
    if FieldError(outs[1..], serial, i, e) && serial {
      forall j | 0 <= j < i + 1 ensures !outs[j].ending.Bubble? {
        if j > 0 { assert outs[1..][j - 1] == outs[j]; }
      }
    }
  }

  // ----- one level ----------------------------------------------------------------------------------

  predicate FromChild(x: Exec, p: Position, step: Step, e: Error)
    requires Finite(x)
  {
    && Child(x, p, step).Some? && Child(x, p, step).value.nodes != []
    && e in Outcome(x, Child(x, p, step).value).errors
  }

  ghost predicate FromSomeChild(x: Exec, p: Position, e: Error)
    requires Finite(x)
  {
    exists step :: FromChild(x, p, step, e)
  }

  /** Non-null wrappers add an error to a null only. */
  lemma WrappersQuiet(x: Exec, t: TypeRef, nodes: seq<Selection>, path: Path, value: PyValue)
    requires Finite(x) && nodes != []
    ensures var out := CompleteValue(x, t, nodes, path, value);
            if value.PyNull? then out.errors == if t.NonNull? then [Error(path, CannotReturnNull)] else []
            else out.errors == CompleteValue(x, Strip(t), nodes, path, value).errors
  {
    StripNotNonNull(t);
    if t.NonNull? { Stripped(x, t, nodes, path, value); }
  }

  lemma ListLevel(x: Exec, p: Position, e: Error)
    requires Finite(x) && p.nodes != [] && Strip(p.t).ListType? && p.raw.Returned? && p.raw.value.PyList?
    ensures e in CompleteValue(x, Strip(p.t), p.nodes, p.path, p.raw.value).errors <==> FromSomeChild(x, p, e)
  {
    var u, items := Strip(p.t).ofType, Shown(x, p.nodes, p.raw.value.items);
    var outs := ItemOuts(x, u, p.nodes, p.path, items, 0);
    ListJoins(x, u, p.nodes, p.path, p.raw.value.items);
    JoinedItemErrors(outs, e);
    if i: nat :| ItemError(outs, i, e) { assert FromChild(x, p, Index(i), e); }
    if step :| FromChild(x, p, step, e) { assert ItemError(outs, step.i, e); }
  }

  /** The field `key` is executed and has error `e`. */
  predicate FromField(x: Exec, objectType: string, source: PyValue, nodes: seq<Selection>, path: Path, serial: bool,
      key: string, e: Error)
    requires Finite(x)
  {
    var field := FieldPosition(x, objectType, source, nodes, path, key);
    && field.Some? && Starts(x, objectType, source, nodes, path, serial, key)
    && e in Outcome(x, field.value).errors
  }

  /** Of fields executed one after the other, none before `key` bubbles. */
  predicate Starts(x: Exec, objectType: string, source: PyValue, nodes: seq<Selection>, path: Path, serial: bool,
      key: string)
    requires Finite(x)
  {
    serial ==>
      forall i, j | 0 <= j < i < |Keys(nodes)| && Keys(nodes)[i] == key ::
        !FieldBubbles(x, objectType, source, nodes, path, Keys(nodes)[j])
  }

  lemma BubbleIsFields(x: Exec, objectType: string, source: PyValue, nodes: seq<Selection>, path: Path, key: string)
    requires Finite(x) && Under(nodes, key) != []
    ensures FieldOut(x, objectType, source, nodes, path, key).ending.Bubble?
            <==> FieldBubbles(x, objectType, source, nodes, path, key)
  {
    if FieldPosition(x, objectType, source, nodes, path, key).Some? {
      FieldIsPosition(x, objectType, source, nodes, path, key);
    }
  }

  /** Keys are distinct, so the fields got to are those that start. */
  lemma StartsExactly(x: Exec, objectType: string, source: PyValue, nodes: seq<Selection>, path: Path, serial: bool,
      i: nat)
    requires Finite(x) && KeysOf(Keys(nodes), nodes) && i < |Keys(nodes)|
    ensures GetsTo(FieldOuts(x, objectType, source, nodes, Keys(nodes), path), serial, i)
            <==> Starts(x, objectType, source, nodes, path, serial, Keys(nodes)[i])
  {
    var keys := Keys(nodes);
    KeysExact(nodes);
    forall j | 0 <= j < |keys|
      ensures FieldOut(x, objectType, source, nodes, path, keys[j]).ending.Bubble?
              <==> FieldBubbles(x, objectType, source, nodes, path, keys[j])
    {
      BubbleIsFields(x, objectType, source, nodes, path, keys[j]);
    }
  }

  /** The errors of an object are those of its typed fields that are executed. */
  lemma ObjectErrors(x: Exec, objectType: string, source: PyValue, nodes: seq<Selection>, path: Path, serial: bool,
      e: Error)
    requires Finite(x) && KeysOf(Keys(nodes), nodes)
    ensures e in ExecuteFields(x, objectType, source, nodes, Keys(nodes), path, serial).errors
            <==> exists key :: FromField(x, objectType, source, nodes, path, serial, key, e)
  {
    var keys := Keys(nodes);
    var outs := FieldOuts(x, objectType, source, nodes, keys, path);
    FieldsJoin(x, objectType, source, nodes, keys, path, serial);
    JoinedFieldErrors(keys, outs, serial, e);
    if i: nat :| FieldError(outs, serial, i, e) {
      StartsExactly(x, objectType, source, nodes, path, serial, i);
      FieldIsPosition(x, objectType, source, nodes, path, keys[i]);
      assert FromField(x, objectType, source, nodes, path, serial, keys[i], e);
    }
    if key :| FromField(x, objectType, source, nodes, path, serial, key, e) {
      var i := KeyIndex(nodes, key);
      StartsExactly(x, objectType, source, nodes, path, serial, i);
      FieldIsPosition(x, objectType, source, nodes, path, key);
      assert FieldError(outs, serial, i, e);
    }
  }

  /** At an object position the children are the typed fields of its object. */
  lemma ChildIsField(x: Exec, p: Position, name: string, step: Step)
    requires Strip(p.t) == NamedType(name) && p.raw.Returned? && !p.raw.value.PyNull?
    requires !IsLeaf(x.env, name) && IsComposite(x.env, name) && Infers(ConcreteType(x, name, p.raw.value))
    ensures var objectType := ConcreteType(x, name, p.raw.value).name.value;
            Child(x, p, step)
            == if step.Index? then None
               else FieldPosition(x, objectType, p.raw.value, SubWalk(x, objectType, p.nodes).nodes, p.path, step.key)
  {
  }

  /** An object's errors are those of its fields. */
  lemma CompositeErrors(x: Exec, name: string, objectType: string, nodes: seq<Selection>, path: Path, value: PyValue)
    requires Finite(x) && nodes != [] && !value.PyNull? && !IsLeaf(x.env, name) && IsComposite(x.env, name)
    requires ConcreteType(x, name, value) == Inferred(Some(objectType))
    ensures var sub := SubWalk(x, objectType, nodes).nodes;
            KeysOf(Keys(sub), sub)
            && CompleteValue(x, NamedType(name), nodes, path, value).errors
               == ExecuteFields(x, objectType, value, sub, Keys(sub), path, false).errors
  {
    AllKeys(SubWalk(x, objectType, nodes).nodes);
  }

  lemma ObjectLevel(x: Exec, p: Position, name: string, e: Error)
    requires Finite(x) && p.nodes != [] && Strip(p.t) == NamedType(name) && p.raw.Returned? && !p.raw.value.PyNull?
    requires !IsLeaf(x.env, name) && IsComposite(x.env, name) && Infers(ConcreteType(x, name, p.raw.value))
    ensures e in CompleteValue(x, Strip(p.t), p.nodes, p.path, p.raw.value).errors <==> FromSomeChild(x, p, e)
  {
    var value := p.raw.value;
    var objectType := ConcreteType(x, name, value).name.value;
    var sub := SubWalk(x, objectType, p.nodes).nodes;
    CompositeErrors(x, name, objectType, p.nodes, p.path, value);
    ObjectErrors(x, objectType, value, sub, p.path, false, e);
    if key :| FromField(x, objectType, value, sub, p.path, false, key, e) {
      ChildIsField(x, p, name, Key(key));
      assert FromChild(x, p, Key(key), e);
    }
    if step :| FromChild(x, p, step, e) {
      ChildIsField(x, p, name, step);
      assert FromField(x, objectType, value, sub, p.path, false, step.key, e);
    }
  }

  lemma BaseLevel(x: Exec, p: Position, e: Error)
    requires Finite(x) && p.nodes != [] && p.raw.Returned? && !p.raw.value.PyNull?
    ensures e in CompleteValue(x, Strip(p.t), p.nodes, p.path, p.raw.value).errors
            <==> BaseReport(x, Strip(p.t), p.path, p.raw.value) == Some(e) || FromSomeChild(x, p, e)
  {
    StripNotNonNull(p.t);
    match Strip(p.t)
    case ListType(u) => if p.raw.value.PyList? { ListLevel(x, p, e); }
    case NamedType(name) =>
      if !IsLeaf(x.env, name) && IsComposite(x.env, name) && Infers(ConcreteType(x, name, p.raw.value)) {
        ObjectLevel(x, p, name, e);
      }
    case NonNull(_) =>
  }

  /** The errors of a position are its own and its children's. */
  lemma LevelErrors(x: Exec, p: Position, e: Error)
    requires Finite(x) && p.nodes != []
    ensures e in Outcome(x, p).errors <==> Report(x, p) == Some(e) || FromSomeChild(x, p, e)
  {
    if p.raw.Returned? {
      var value := p.raw.value;
      WrappersQuiet(x, p.t, p.nodes, p.path, value);
      CrashExact(x, p.t, p.nodes, p.path, value);
      StripCrashes(x, p.t, p.nodes, value);
      StripNotNonNull(p.t);
      if !value.PyNull? { BaseLevel(x, p, e); }
    }
  }

  // ----- exactly the errors of the positions below ---------------------------------------------

  lemma {:induction false} ErrorHasPosition(x: Exec, p: Position, e: Error) returns (path: Path)
    requires Finite(x) && p.nodes != [] && e in Outcome(x, p).errors
    ensures Reported(x, p, path, e)
    decreases Size(p.nodes, x.weight), Depth(p.t)
  {
    LevelErrors(x, p, e);
    if Report(x, p) == Some(e) {
      path := [];
    } else {
      var step :| FromChild(x, p, step, e);
      ChildSmaller(x, p, step);
      var rest := ErrorHasPosition(x, Child(x, p, step).value, e);
      path := [step] + rest;
      assert path[1..] == rest;
    }
  }

  lemma {:induction false} PositionReports(x: Exec, p: Position, path: Path, e: Error)
    requires Finite(x) && p.nodes != [] && Reported(x, p, path, e)
    ensures e in Outcome(x, p).errors
    decreases |path|
  {
    LevelErrors(x, p, e);
    if path != [] {
      ChildSmaller(x, p, path[0]);
      ChildHasNodes(x, p, path[0]);
      PositionReports(x, Child(x, p, path[0]).value, path[1..], e);
      assert FromChild(x, p, path[0], e);
    }
  }

  lemma ChildHasNodes(x: Exec, p: Position, step: Step)
    requires p.nodes != [] && Child(x, p, step).Some?
    ensures Child(x, p, step).value.nodes != []
  {
  }

  /** An error is recorded below a position exactly when some position there, or it itself, reports it. */
  lemma ErrorsExactly(x: Exec, p: Position, e: Error)
    requires Finite(x) && p.nodes != []
    ensures e in Outcome(x, p).errors <==> SomeReported(x, p, e)
  {
    if e in Outcome(x, p).errors {
      var path := ErrorHasPosition(x, p, e);
    }
    if path :| Reported(x, p, path, e) { PositionReports(x, p, path, e); }
  }

  // ----- worlds that leave error paths to the executor --------------------------------------------

  /** Raised GraphQL errors carry no path of their own. */
  ghost predicate Pathless(w: World) {
    && (forall o, f, a, s, p :: w.resolve(o, f, a, s, p).Raised? ==> w.resolve(o, f, a, s, p).preset.None?)
    && (forall n, v :: w.serialize(n, v).Refused? ==> w.serialize(n, v).preset.None?)
  }

  /** And serializers do not turn a value into None. */
  ghost predicate Candid(w: World) { Pathless(w) && forall n, v :: w.serialize(n, v) != Emitted(None) }

  predicate IsOutput(env: Env, t: TypeRef) {
    match t
    case NamedType(name) => name in env.types && !env.types[name].InputObjectType?
    case ListType(u) => IsOutput(env, u)
    case NonNull(u) => IsOutput(env, u)
  }

  /** Every object field has an output type. */
  predicate OutputFields(env: Env) {
    forall n <- env.types | env.types[n].ObjectType? :: forall f <- env.types[n].fields ::
      IsOutput(env, env.types[n].fields[f])
  }

  ghost predicate Sound(x: Exec) { Finite(x) && Candid(x.world) && OutputFields(x.env) }

  /** An error raised for the position carries no path. */
  predicate Unset(p: Position) { p.raw.Raised? ==> p.raw.preset.None? }

  lemma ChildUnset(x: Exec, p: Position, step: Step)
    requires Pathless(x.world) && Child(x, p, step).Some?
    ensures Unset(Child(x, p, step).value)
  {
  }

  lemma {:induction false} PathFrom(x: Exec, p: Position, path: Path)
    requires PositionAt(x, p, path).Some?
    ensures PositionAt(x, p, path).value.path == p.path + path
    decreases |path|
  {
    if path != [] {
      PathFrom(x, Child(x, p, path[0]).value, path[1..]);
      Onward(p.path, path);
    }
  }

  /** Then a position reports at its own path. */
  lemma {:induction false} ReportedHere(x: Exec, p: Position, path: Path, e: Error)
    requires Pathless(x.world) && Unset(p) && Reported(x, p, path, e)
    ensures e.path == p.path + path
    decreases |path|
  {
    if path == [] {
      assert p.path + path == p.path;
    } else {
      ChildUnset(x, p, path[0]);
      ReportedHere(x, Child(x, p, path[0]).value, path[1..], e);
      Onward(p.path, path);
    }
  }

  /** Errors of a position stand at it or below it. */
  lemma ErrorsBelow(x: Exec, p: Position, e: Error)
    requires Finite(x) && Pathless(x.world) && p.nodes != [] && Unset(p) && e in Outcome(x, p).errors
    ensures p.path <= e.path && Reported(x, p, e.path[|p.path|..], e)
  {
    var path := ErrorHasPosition(x, p, e);
    ReportedHere(x, p, path, e);
    assert e.path[|p.path|..] == path;
  }

  // ----- no position reports twice --------------------------------------------------------------------

  predicate PathsOnce(errors: seq<Error>) { forall i, j | 0 <= i < j < |errors| :: errors[i].path != errors[j].path }

  predicate AllUnder(errors: seq<Error>, path: Path) { forall e <- errors :: path <= e.path }

  lemma PathsApart(a: seq<Error>, b: seq<Error>, path: Path, step: Step)
    requires PathsOnce(a) && PathsOnce(b) && AllUnder(a, path + [step])
    requires forall e <- b :: !(path + [step] <= e.path)
    ensures PathsOnce(a + b)
  {
    forall i, j | 0 <= i < j < |a + b| ensures (a + b)[i].path != (a + b)[j].path {
      if i < |a| <= j { assert (a + b)[i] in a && (a + b)[j] in b; }
    }
  }

  lemma NotUnder(path: Path, step: Step, other: Step, e: Path)
    requires step != other && path + [other] <= e
    ensures !(path + [step] <= e)
  {
    assert e[|path|] == (path + [other])[|path|];
    assert (path + [step])[|path|] == step;
  }

  lemma {:induction false} ItemsOnce(outs: seq<Out>, path: Path, from: nat)
    requires forall i | 0 <= i < |outs| ::
               PathsOnce(outs[i].errors) && AllUnder(outs[i].errors, path + [Index(from + i)])
    ensures PathsOnce(JoinItems(outs).errors)
  {
    if outs != [] {
      var rest := JoinItems(outs[1..]).errors;
      forall i | 0 <= i < |outs[1..]|
        ensures PathsOnce(outs[1..][i].errors) && AllUnder(outs[1..][i].errors, path + [Index(from + 1 + i)])
      {
        assert outs[1..][i] == outs[i + 1];
      }
      ItemsOnce(outs[1..], path, from + 1);
      forall e <- rest ensures !(path + [Index(from)] <= e.path) {
        JoinedItemErrors(outs[1..], e);
        var i: nat :| ItemError(outs[1..], i, e);
        NotUnder(path, Index(from), Index(from + 1 + i), e.path);
      }
      PathsApart(outs[0].errors, rest, path, Index(from));
    }
  }

  lemma {:induction false} FieldsOnce(keys: seq<string>, outs: seq<Out>, serial: bool, path: Path)
    requires |keys| == |outs| && forall o <- outs :: !o.ending.Crash?
    requires forall i, j | 0 <= i < j < |keys| :: keys[i] != keys[j]
    requires forall i | 0 <= i < |outs| :: PathsOnce(outs[i].errors) && AllUnder(outs[i].errors, path + [Key(keys[i])])
    ensures PathsOnce(JoinFields(keys, outs, serial).errors)
    decreases |keys|
  {
    if keys != [] && !(serial && outs[0].ending.Bubble?) {
      var rest := JoinFields(keys[1..], outs[1..], serial).errors;
      FieldsOnce(keys[1..], outs[1..], serial, path);
      forall e <- rest ensures !(path + [Key(keys[0])] <= e.path) {
        JoinedFieldErrors(keys[1..], outs[1..], serial, e);
        var i: nat :| FieldError(outs[1..], serial, i, e);
        NotUnder(path, Key(keys[0]), Key(keys[i + 1]), e.path);
      }
      PathsApart(outs[0].errors, rest, path, Key(keys[0]));
    }
  }

  lemma {:induction false} ObjectOnce(x: Exec, objectType: string, source: PyValue, nodes: seq<Selection>, path: Path,
      serial: bool)
    requires Finite(x) && Pathless(x.world) && KeysOf(Keys(nodes), nodes)
    ensures PathsOnce(ExecuteFields(x, objectType, source, nodes, Keys(nodes), path, serial).errors)
    decreases Size(nodes, x.weight), 1, 0
  {
    var keys := Keys(nodes);
    var outs := FieldOuts(x, objectType, source, nodes, keys, path);
    FieldsJoin(x, objectType, source, nodes, keys, path, serial);
    KeysExact(nodes);
    forall i | 0 <= i < |keys|
      ensures PathsOnce(outs[i].errors) && AllUnder(outs[i].errors, path + [Key(keys[i])])
    {
      var field := FieldPosition(x, objectType, source, nodes, path, keys[i]);
      if field.Some? {
        FieldIsPosition(x, objectType, source, nodes, path, keys[i]);
        SizeUnder(nodes, keys[i], x.weight);
        PositionOnce(x, field.value);
        forall e <- outs[i].errors ensures path + [Key(keys[i])] <= e.path { ErrorsBelow(x, field.value, e); }
      }
    }
    FieldsOnce(keys, outs, serial, path);
  }

  /** Each path is reported at most once. */
  lemma {:induction false} PositionOnce(x: Exec, p: Position)
    requires Finite(x) && Pathless(x.world) && p.nodes != [] && Unset(p)
    ensures PathsOnce(Outcome(x, p).errors)
    decreases Size(p.nodes, x.weight), 0, Depth(p.t)
  {
    if p.raw.Returned? {
      var value := p.raw.value;
      var out := CompleteValue(x, p.t, p.nodes, p.path, value);
      WrappersQuiet(x, p.t, p.nodes, p.path, value);
      CrashExact(x, p.t, p.nodes, p.path, value);
      StripCrashes(x, p.t, p.nodes, value);
      CrashExact(x, Strip(p.t), p.nodes, p.path, value);
      if !value.PyNull? { BaseOnce(x, p); }
      assert PathsOnce(out.errors);
      if out.ending.Crash? {
        StripNotNonNull(p.t);
        assert !value.PyNull?;
        OneMorePath(out.errors, Error(p.path, Unexpected));
      }
    }
  }

  lemma OneMorePath(errors: seq<Error>, e: Error)
    requires PathsOnce(errors) && forall other <- errors :: other.path != e.path
    ensures PathsOnce(errors + [e])
  {
    assert forall i | 0 <= i < |errors| :: errors[i] in errors;
  }

  lemma {:induction false} BaseOnce(x: Exec, p: Position)
    requires Finite(x) && Pathless(x.world) && p.nodes != [] && p.raw.Returned? && !p.raw.value.PyNull?
    ensures var out := CompleteValue(x, Strip(p.t), p.nodes, p.path, p.raw.value);
            PathsOnce(out.errors) && (out.ending.Crash? ==> forall e <- out.errors :: e.path != p.path)
    decreases Size(p.nodes, x.weight), 0, Depth(p.t), 1
  {
    StripNotNonNull(p.t);
    match Strip(p.t)
    case ListType(u) => if p.raw.value.PyList? { ListOnce(x, p, u); }
    case NamedType(name) =>
      if !IsLeaf(x.env, name) && IsComposite(x.env, name) && Infers(ConcreteType(x, name, p.raw.value)) {
        CompositeOnce(x, name, ConcreteType(x, name, p.raw.value).name.value, p.nodes, p.path, p.raw.value);
      }
    case NonNull(_) =>
  }

  lemma CompositeOnce(x: Exec, name: string, objectType: string, nodes: seq<Selection>, path: Path, value: PyValue)
    requires Finite(x) && Pathless(x.world) && nodes != [] && !value.PyNull?
    requires !IsLeaf(x.env, name) && IsComposite(x.env, name)
             && ConcreteType(x, name, value) == Inferred(Some(objectType))
    ensures var out := CompleteValue(x, NamedType(name), nodes, path, value);
            PathsOnce(out.errors) && !out.ending.Crash?
    decreases Size(nodes, x.weight), 0, 0, 0
  {
    SubWalkSize(x, objectType, nodes);
    CompositeErrors(x, name, objectType, nodes, path, value);
    ObjectOnce(x, objectType, value, SubWalk(x, objectType, nodes).nodes, path, false);
  }

  lemma {:induction false} ListOnce(x: Exec, p: Position, u: TypeRef)
    requires Finite(x) && Pathless(x.world) && p.nodes != [] && Strip(p.t) == ListType(u)
    requires p.raw.Returned? && p.raw.value.PyList?
    ensures var out := CompleteValue(x, Strip(p.t), p.nodes, p.path, p.raw.value);
            PathsOnce(out.errors) && forall e <- out.errors :: e.path != p.path
    decreases Size(p.nodes, x.weight), 0, Depth(p.t), 0
  {
    var items := Shown(x, p.nodes, p.raw.value.items);
    var outs := ItemOuts(x, u, p.nodes, p.path, items, 0);
    ListJoins(x, u, p.nodes, p.path, p.raw.value.items);
    StripDepth(p.t);
    forall i | 0 <= i < |items| ensures PathsOnce(outs[i].errors) && AllUnder(outs[i].errors, p.path + [Index(0 + i)]) {
      var item := Child(x, p, Index(i)).value;
      PositionOnce(x, item);
      forall e <- outs[i].errors ensures p.path + [Index(i)] <= e.path { ErrorsBelow(x, item, e); }
    }
    ItemsOnce(outs, p.path, 0);
    forall e <- JoinItems(outs).errors ensures e.path != p.path {
      JoinedItemErrors(outs, e);
      var i: nat :| ItemError(outs, i, e);
    }
  }

  // ----- errors meet nulls -----------------------------------------------------------------------------

  /** Following `rest` into `json` meets a null, at its end at the latest. */
  predicate MeetsNull(json: Json, rest: Path)
    decreases |rest|
  {
    || json.JNull?
    || (rest != [] && StepInto(json, rest[0]).Some? && MeetsNull(StepInto(json, rest[0]).value, rest[1..]))
  }

  /** What a position reports itself leaves no data there. */
  lemma ReportLeavesNull(x: Exec, p: Position)
    requires Finite(x) && p.nodes != [] && Report(x, p).Some? && Outcome(x, p).ending.Data?
    ensures Outcome(x, p).ending.json.JNull?
  {
    if p.raw.Returned? { CrashExact(x, p.t, p.nodes, p.path, p.raw.value); }
    LocalNullOutcome(x, p);
  }

  /** Following the path to a position that reports something meets a null. */
  lemma {:induction false} ReportMeetsNull(x: Exec, p: Position, path: Path)
    requires Finite(x) && p.nodes != [] && Outcome(x, p).ending.Data?
    requires PositionAt(x, p, path).Some? && Report(x, PositionAt(x, p, path).value).Some?
    ensures MeetsNull(Outcome(x, p).ending.json, path)
    decreases |path|
  {
    if path == [] {
      ReportLeavesNull(x, p);
    } else if !Outcome(x, p).ending.json.JNull? {
      ChildThere(x, p, path[0]);
      ChildDataIsLocal(x, p, path[0]);
      ReportMeetsNull(x, Child(x, p, path[0]).value, path[1..]);
    }
  }

  // ----- nulls leave errors ------------------------------------------------------------------------------

  /** A bubble leaves an error behind; so does a null that the resolver did not return. */
  lemma {:induction false} NullLeavesError(x: Exec, t: TypeRef, nodes: seq<Selection>, path: Path, value: PyValue)
    requires Sound(x) && nodes != [] && IsOutput(x.env, t)
    ensures var out := CompleteValue(x, t, nodes, path, value);
            && (out.ending.Bubble? ==> out.errors != [])
            && (out.ending == Data(JNull) ==> value.PyNull? || out.errors != [])
    decreases Size(nodes, x.weight), 0, t, 0
  {
    match t
    case NonNull(u) => NullLeavesError(x, u, nodes, path, value);
    case ListType(u) =>
      if value.PyList? {
        assert value.items[..|value.items|] == value.items;
        ItemsLeaveError(x, u, nodes, path, Shown(x, nodes, value.items), 0);
      }
    case NamedType(name) =>
      if !value.PyNull? && !IsLeaf(x.env, name) && Infers(ConcreteType(x, name, value)) {
        var objectType := ConcreteType(x, name, value).name.value;
        var sub := SubWalk(x, objectType, nodes);
        SubWalkSize(x, objectType, nodes);
        AllKeys(sub.nodes);
        FieldsLeaveError(x, objectType, value, sub.nodes, Keys(sub.nodes), path, false);
      }
  }

  lemma {:induction false} ItemsLeaveError(x: Exec, t: TypeRef, nodes: seq<Selection>, path: Path, items: seq<PyValue>,
      from: nat)
    requires Sound(x) && nodes != [] && IsOutput(x.env, t)
    ensures var out := CompleteItems(x, t, nodes, path, items, from);
            out.ending.Bubble? ==> out.errors != []
    decreases Size(nodes, x.weight), 0, t, 1 + |items|
  {
    if items != [] {
      NullLeavesError(x, t, nodes, path + [Index(from)], items[0]);
      ItemsLeaveError(x, t, nodes, path, items[1..], from + 1);
    }
  }

  lemma {:induction false} FieldsLeaveError(x: Exec, objectType: string, source: PyValue, nodes: seq<Selection>,
                         keys: seq<string>, path: Path, serial: bool)
    requires Sound(x) && KeysOf(keys, nodes)
    ensures var out := ExecuteFields(x, objectType, source, nodes, keys, path, serial);
            out.ending.Bubble? ==> out.errors != []
    decreases Size(nodes, x.weight), 2, |keys|
  {
    if keys != [] {
      SizeUnder(nodes, keys[0], x.weight);
      FieldLeavesError(x, objectType, source, Under(nodes, keys[0]), path + [Key(keys[0])]);
      FieldsLeaveError(x, objectType, source, nodes, keys[1..], path, serial);
    }
  }

  lemma {:induction false} FieldLeavesError(x: Exec, objectType: string, source: PyValue, nodes: seq<Selection>,
      path: Path)
    requires Sound(x) && nodes != []
    ensures var out := ExecuteField(x, objectType, source, nodes, path);
            out.ending.Bubble? ==> out.errors != []
    decreases Size(nodes, x.weight), 1
  {
    var node := nodes[0];
    if node.Field? && node.name != "__typename" && node.name in FieldTypes(x.env, objectType) {
      match x.world.resolve(objectType, node.name, Arguments.ArgumentsMap(node.arguments), source, path)
      case Raised(_) =>
      case Returned(value) => NullLeavesError(x, FieldTypes(x.env, objectType)[node.name], nodes, path, value);
    }
  }

  /** A child's errors are among its parent's. */
  lemma ChildErrors(x: Exec, p: Position, step: Step)
    requires Finite(x) && p.nodes != [] && Child(x, p, step).Some?
    ensures Child(x, p, step).value.nodes != []
    ensures forall e <- Outcome(x, Child(x, p, step).value).errors :: e in Outcome(x, p).errors
  {
    ChildHasNodes(x, p, step);
    forall e <- Outcome(x, Child(x, p, step).value).errors ensures e in Outcome(x, p).errors {
      LevelErrors(x, p, e);
      assert FromChild(x, p, step, e);
    }
  }

  /** The null at `p` is one the resolver returned where null is allowed. */
  predicate ReturnedNull(p: Position) { p.raw == Returned(PyNull) && !p.t.NonNull? }

  /** The position has an output type, and an error raised for it carries no path. */
  ghost predicate Proper(x: Exec, p: Position) {
    p.nodes != [] && IsOutput(x.env, p.t) && (p.raw.Raised? ==> p.raw.preset.None?)
  }

  lemma {:induction false} ChildProper(x: Exec, p: Position, step: Step)
    requires Sound(x) && Proper(x, p) && Child(x, p, step).Some?
    ensures Proper(x, Child(x, p, step).value)
  {
    StripOutput(x.env, p.t);
  }

  lemma {:induction false} StripOutput(env: Env, t: TypeRef)
    ensures IsOutput(env, t) <==> IsOutput(env, Strip(t))
  {
    if t.NonNull? { StripOutput(env, t.ofType); }
  }

  /** A null below `p` was returned by a resolver, or an error of `p` stands at or beneath it. */
  lemma {:induction false} NullExplainedBelow(x: Exec, p: Position, path: Path)
    requires Sound(x) && Proper(x, p)
    requires Outcome(x, p).ending.Data? && PositionAt(x, p, path).Some?
    requires DataAt(Outcome(x, p).ending.json, path) == Some(JNull)
    ensures var q := PositionAt(x, p, path).value;
            ReturnedNull(q) || ErrorBeneath(Outcome(x, p).errors, q.path)
    decreases |path|
  {
    if path == [] {
      if p.t.NonNull? { NonNullNeverNull(x, p); }
      if p.raw.Returned? { NullLeavesError(x, p.t, p.nodes, p.path, p.raw.value); }
      if !ReturnedNull(p) {
        var e := Outcome(x, p).errors[0];
        assert e in Outcome(x, p).errors;
        ErrorsBelow(x, p, e);
      }
    } else {
      ChildDataIsLocal(x, p, path[0]);
      ChildErrors(x, p, path[0]);
      ChildProper(x, p, path[0]);
      NullExplainedBelow(x, Child(x, p, path[0]).value, path[1..]);
    }
  }

  /** Some error is recorded at the path or beneath it. */
  predicate ErrorBeneath(errors: seq<Error>, path: Path) { exists e <- errors :: path <= e.path }

  // ----- positions without a type ------------------------------------------------------------------

  /** The key's first node asks for a field the object type does not have; its data is null unseen. */
  predicate UnknownField(x: Exec, objectType: string, nodes: seq<Selection>, key: string) {
    var under := Under(nodes, key);
    under != [] && under[0].Field? && under[0].name != "__typename" && under[0].name !in FieldTypes(x.env, objectType)
  }

  predicate UnknownChild(x: Exec, p: Position, step: Step) {
    && p.raw.Returned? && !p.raw.value.PyNull? && Strip(p.t).NamedType? && step.Key?
    && !IsLeaf(x.env, Strip(p.t).name) && IsComposite(x.env, Strip(p.t).name)
    && var concrete := ConcreteType(x, Strip(p.t).name, p.raw.value);
       Infers(concrete) && UnknownField(x, concrete.name.value, SubWalk(x, concrete.name.value, p.nodes).nodes,
           step.key)
  }

  /** The path leads from `p` through typed positions to a field that is unknown. */
  predicate UnknownAt(x: Exec, p: Position, path: Path)
    decreases |path|
  {
    && path != []
    && if |path| == 1 then UnknownChild(x, p, path[0])
       else Child(x, p, path[0]).Some? && UnknownAt(x, Child(x, p, path[0]).value, path[1..])
  }

  /** The path below an object leads to a field that is unknown. */
  predicate UnknownIn(x: Exec, objectType: string, source: PyValue, nodes: seq<Selection>, path: Path, rel: Path) {
    && rel != [] && rel[0].Key?
    && if |rel| == 1 then UnknownField(x, objectType, nodes, rel[0].key)
       else
         var field := FieldPosition(x, objectType, source, nodes, path, rel[0].key);
         field.Some? && UnknownAt(x, field.value, rel[1..])
  }

  /** The response path leads to a field that is unknown. */
  predicate UnknownInResponse(x: Exec, rootType: string, rootValue: PyValue, ss: seq<Selection>, path: Path) {
    UnknownIn(x, rootType, rootValue, Walk(x.env, rootType, ss, {}, x.incremental).nodes, [], path)
  }

  /** An object's key without a typed position holds a type name, or null for an unknown field. */
  lemma UntypedField(x: Exec, objectType: string, source: PyValue, nodes: seq<Selection>, path: Path, serial: bool,
      key: string)
    requires Finite(x) && KeysOf(Keys(nodes), nodes) && forall n <- nodes :: n.Field?
    requires FieldPosition(x, objectType, source, nodes, path, key).None?
    ensures var out := ExecuteFields(x, objectType, source, nodes, Keys(nodes), path, serial);
            out.ending.Data? && StepInto(out.ending.json, Key(key)).Some? ==>
              || StepInto(out.ending.json, Key(key)) == Some(JName(objectType))
              || (StepInto(out.ending.json, Key(key)) == Some(JNull) && UnknownField(x, objectType, nodes, key))
  {
    var keys := Keys(nodes);
    var outs := FieldOuts(x, objectType, source, nodes, keys, path);
    FieldsJoin(x, objectType, source, nodes, keys, path, serial);
    JoinedFields(keys, outs, serial);
    var out := ExecuteFields(x, objectType, source, nodes, keys, path, serial);
    if out.ending.Data? && StepInto(out.ending.json, Key(key)).Some? {
      EntryFound(out.ending.json.entries, key);
      ObjectDataIsLocal(x, objectType, source, nodes, path, serial, key);
      UnderExact(nodes, key);
      assert Under(nodes, key)[0] in Under(nodes, key);
    }
  }

  lemma {:induction false} EntryFound(entries: seq<Entry>, key: string)
    requires Find(entries, key).Some?
    ensures exists i | 0 <= i < |entries| :: entries[i].key == key
  {
    if entries[0].key != key {
      EntryFound(entries[1..], key);
      var i :| 0 <= i < |entries[1..]| && entries[1..][i].key == key;
      assert entries[i + 1].key == key;
    }
  }

  lemma {:induction false} SubWalkFields(x: Exec, objectType: string, nodes: seq<Selection>)
    ensures forall n <- SubWalk(x, objectType, nodes).nodes :: n.Field?
  {
    if nodes != [] { SubWalkFields(x, objectType, nodes[1..]); }
  }

  /** Data below a position without a typed position there. */
  lemma {:induction false} UntypedChild(x: Exec, p: Position, step: Step)
    requires Finite(x) && p.nodes != [] && Outcome(x, p).ending.Data? && Child(x, p, step).None?
    ensures var inner := StepInto(Outcome(x, p).ending.json, step);
            inner.Some? ==> inner.value.JName? || (inner.value.JNull? && UnknownChild(x, p, step))
  {
    if p.raw.Returned? && !p.raw.value.PyNull? {
      var value := p.raw.value;
      if p.t.NonNull? { Stripped(x, p.t, p.nodes, p.path, value); }
      match Strip(p.t)
      case ListType(u) =>
      case NamedType(name) =>
        if !IsLeaf(x.env, name) && IsComposite(x.env, name) && Infers(ConcreteType(x, name, value)) && step.Key? {
          var objectType := ConcreteType(x, name, value).name.value;
          var sub := SubWalk(x, objectType, p.nodes).nodes;
          AllKeys(sub);
          SubWalkFields(x, objectType, p.nodes);
          UntypedField(x, objectType, value, sub, p.path, false, step.key);
        }
      case NonNull(_) => StripNotNonNull(p.t);
    } else if p.raw.Returned? && p.t.NonNull? {
      Stripped(x, p.t, p.nodes, p.path, p.raw.value);
      StripNotNonNull(p.t);
    }
  }

  /** A null stands at a typed position, or it is an unknown field's. */
  lemma {:induction false} NullIsTyped(x: Exec, p: Position, path: Path)
    requires Finite(x) && p.nodes != [] && Outcome(x, p).ending.Data?
    requires DataAt(Outcome(x, p).ending.json, path) == Some(JNull)
    ensures PositionAt(x, p, path).Some? || UnknownAt(x, p, path)
    decreases |path|
  {
    if path != [] {
      if Child(x, p, path[0]).Some? {
        ChildDataIsLocal(x, p, path[0]);
        NullIsTyped(x, Child(x, p, path[0]).value, path[1..]);
      } else {
        UntypedChild(x, p, path[0]);
        LeafEnds(StepInto(Outcome(x, p).ending.json, path[0]).value, path[1..]);
      }
    }
  }

  lemma LeafEnds(json: Json, path: Path)
    requires json.JName? || json.JNull?
    ensures DataAt(json, path) == Some(JNull) ==> path == [] && json.JNull?
  {
    if path != [] {
      assert StepInto(json, path[0]) == None;
      assert DataAt(json, path) == None;
    } else {
      assert DataAt(json, path) == Some(json);
    }
  }

  // ----- objects: a response, or a payload's data ----------------------------------------------------------

  /** The data of executing the fields of an object, null when one of them bubbles. */
  function ObjectData(x: Exec, objectType: string, source: PyValue, nodes: seq<Selection>, path: Path,
      serial: bool): Json
    requires Finite(x) && KeysOf(Keys(nodes), nodes)
  {
    Absorbed(ExecuteFields(x, objectType, source, nodes, Keys(nodes), path, serial).ending).json
  }

  /** The position at `rel` below the object reports `e`, and its field is executed. */
  predicate ReportedIn(x: Exec, objectType: string, source: PyValue, nodes: seq<Selection>, path: Path, serial: bool,
      rel: Path, e: Error)
    requires Finite(x)
  {
    var p := PositionIn(x, objectType, source, nodes, path, rel);
    p.Some? && Report(x, p.value) == Some(e) && Starts(x, objectType, source, nodes, path, serial, rel[0].key)
  }

  /** An error is recorded for an object exactly when some executed position below it reports it. */
  lemma ObjectErrorsExactly(x: Exec, objectType: string, source: PyValue, nodes: seq<Selection>, path: Path,
      serial: bool, e: Error)
    requires Finite(x) && KeysOf(Keys(nodes), nodes)
    ensures e in ExecuteFields(x, objectType, source, nodes, Keys(nodes), path, serial).errors
            <==> exists rel: Path :: ReportedIn(x, objectType, source, nodes, path, serial, rel, e)
  {
    ObjectErrors(x, objectType, source, nodes, path, serial, e);
    if key :| FromField(x, objectType, source, nodes, path, serial, key, e) {
      var below := ErrorHasPosition(x, FieldPosition(x, objectType, source, nodes, path, key).value, e);
      assert ([Key(key)] + below)[1..] == below;
      assert ReportedIn(x, objectType, source, nodes, path, serial, [Key(key)] + below, e);
    }
    if rel: Path :| ReportedIn(x, objectType, source, nodes, path, serial, rel, e) {
      PositionReports(x, FieldPosition(x, objectType, source, nodes, path, rel[0].key).value, rel[1..], e);
      assert FromField(x, objectType, source, nodes, path, serial, rel[0].key, e);
    }
  }

  lemma ReportedInHere(x: Exec, objectType: string, source: PyValue, nodes: seq<Selection>, path: Path,
      serial: bool, rel: Path, e: Error)
    requires Finite(x) && Pathless(x.world) && ReportedIn(x, objectType, source, nodes, path, serial, rel, e)
    ensures e.path == path + rel
  {
    ReportedHere(x, FieldPosition(x, objectType, source, nodes, path, rel[0].key).value, rel[1..], e);
    Onward(path, rel);
  }

  lemma Behind(path: Path, rel: Path, whole: Path)
    requires whole == path + rel
    ensures path <= whole && whole[|path|..] == rel
  {
  }

  /** Errors of an object stand at their positions' paths, below the object's own. */
  lemma ObjectErrorsHere(x: Exec, objectType: string, source: PyValue, nodes: seq<Selection>, path: Path,
      serial: bool, e: Error)
    requires Finite(x) && Pathless(x.world) && KeysOf(Keys(nodes), nodes)
    requires e in ExecuteFields(x, objectType, source, nodes, Keys(nodes), path, serial).errors
    ensures path <= e.path && ReportedIn(x, objectType, source, nodes, path, serial, e.path[|path|..], e)
  {
    ObjectErrorsExactly(x, objectType, source, nodes, path, serial, e);
    var rel: Path :| ReportedIn(x, objectType, source, nodes, path, serial, rel, e);
    ReportedInHere(x, objectType, source, nodes, path, serial, rel, e);
    Behind(path, rel, e.path);
  }

  /** Following an error's path through the object's data meets a null, at its end at the latest. */
  lemma ObjectErrorMeetsNull(x: Exec, objectType: string, source: PyValue, nodes: seq<Selection>, path: Path,
      serial: bool, e: Error)
    requires Finite(x) && Pathless(x.world) && KeysOf(Keys(nodes), nodes)
    requires e in ExecuteFields(x, objectType, source, nodes, Keys(nodes), path, serial).errors
    ensures path <= e.path && MeetsNull(ObjectData(x, objectType, source, nodes, path, serial), e.path[|path|..])
  {
    ObjectErrorsHere(x, objectType, source, nodes, path, serial, e);
    var rel := e.path[|path|..];
    if !ObjectData(x, objectType, source, nodes, path, serial).JNull? {
      var field := FieldPosition(x, objectType, source, nodes, path, rel[0].key).value;
      ObjectDataIsLocal(x, objectType, source, nodes, path, serial, rel[0].key);
      FieldIsPosition(x, objectType, source, nodes, path, rel[0].key);
      ReportMeetsNull(x, field, rel[1..]);
    }
  }

  /** Unless it is null as a whole, an object has its fields' errors. */
  lemma ObjectFieldErrors(x: Exec, objectType: string, source: PyValue, nodes: seq<Selection>, path: Path, serial: bool,
      key: string)
    requires Finite(x) && KeysOf(Keys(nodes), nodes) && Under(nodes, key) != []
    ensures var out := ExecuteFields(x, objectType, source, nodes, Keys(nodes), path, serial);
            out.ending.Data? ==> forall e <- FieldOut(x, objectType, source, nodes, path, key).errors :: e in out.errors
  {
    var field := FieldPosition(x, objectType, source, nodes, path, key);
    if field.Some? && ExecuteFields(x, objectType, source, nodes, Keys(nodes), path, serial).ending.Data? {
      FieldIsPosition(x, objectType, source, nodes, path, key);
      ObjectBubbles(x, objectType, source, nodes, path, serial);
      forall e <- FieldOut(x, objectType, source, nodes, path, key).errors
        ensures e in ExecuteFields(x, objectType, source, nodes, Keys(nodes), path, serial).errors
      {
        ObjectErrors(x, objectType, source, nodes, path, serial, e);
        assert FromField(x, objectType, source, nodes, path, serial, key, e);
      }
    }
  }

  lemma NullIsTypedIn(x: Exec, objectType: string, source: PyValue, nodes: seq<Selection>, path: Path, serial: bool,
      rel: Path)
    requires Finite(x) && KeysOf(Keys(nodes), nodes) && (forall n <- nodes :: n.Field?) && rel != []
    requires DataAt(ObjectData(x, objectType, source, nodes, path, serial), rel) == Some(JNull)
    ensures PositionIn(x, objectType, source, nodes, path, rel).Some?
            || UnknownIn(x, objectType, source, nodes, path, rel)
  {
    var inner := StepInto(ObjectData(x, objectType, source, nodes, path, serial), rel[0]).value;
    var field := FieldPosition(x, objectType, source, nodes, path, rel[0].key);
    if field.Some? {
      ObjectDataIsLocal(x, objectType, source, nodes, path, serial, rel[0].key);
      FieldIsPosition(x, objectType, source, nodes, path, rel[0].key);
      NullIsTyped(x, field.value, rel[1..]);
    } else {
      UntypedField(x, objectType, source, nodes, path, serial, rel[0].key);
      LeafEnds(inner, rel[1..]);
    }
  }

  lemma TypedNullExplained(x: Exec, objectType: string, source: PyValue, nodes: seq<Selection>, path: Path,
      serial: bool, rel: Path)
    requires Sound(x) && KeysOf(Keys(nodes), nodes)
    requires PositionIn(x, objectType, source, nodes, path, rel).Some?
    requires DataAt(ObjectData(x, objectType, source, nodes, path, serial), rel) == Some(JNull)
    ensures ReturnedNull(PositionIn(x, objectType, source, nodes, path, rel).value)
            || ErrorBeneath(ExecuteFields(x, objectType, source, nodes, Keys(nodes), path, serial).errors, path + rel)
  {
    var field := FieldPosition(x, objectType, source, nodes, path, rel[0].key).value;
    ObjectDataIsLocal(x, objectType, source, nodes, path, serial, rel[0].key);
    ObjectFieldErrors(x, objectType, source, nodes, path, serial, rel[0].key);
    FieldIsPosition(x, objectType, source, nodes, path, rel[0].key);
    NullExplainedBelow(x, field, rel[1..]);
    PathFrom(x, field, rel[1..]);
    Onward(path, rel);
  }

  /** Every null in an object's data, the data itself included, is one a resolver returned where the type
      allows it, or has an error recorded for that object at or beneath it, or stands for an unknown field. */
  lemma ObjectNullExplained(x: Exec, objectType: string, source: PyValue, nodes: seq<Selection>, path: Path,
      serial: bool, rel: Path)
    requires Sound(x) && KeysOf(Keys(nodes), nodes) && forall n <- nodes :: n.Field?
    requires DataAt(ObjectData(x, objectType, source, nodes, path, serial), rel) == Some(JNull)
    ensures var p := PositionIn(x, objectType, source, nodes, path, rel);
            || (p.Some? && ReturnedNull(p.value))
            || ErrorBeneath(ExecuteFields(x, objectType, source, nodes, Keys(nodes), path, serial).errors, path + rel)
            || UnknownIn(x, objectType, source, nodes, path, rel)
  {
    if rel == [] {
      FieldsLeaveError(x, objectType, source, nodes, Keys(nodes), path, serial);
      var errors := ExecuteFields(x, objectType, source, nodes, Keys(nodes), path, serial).errors;
      assert errors[0] in errors && path + rel == path;
      ObjectErrorsHere(x, objectType, source, nodes, path, serial, errors[0]);
    } else {
      NullIsTypedIn(x, objectType, source, nodes, path, serial, rel);
      if PositionIn(x, objectType, source, nodes, path, rel).Some? {
        TypedNullExplained(x, objectType, source, nodes, path, serial, rel);
      }
    }
  }

  // ----- the whole response ----------------------------------------------------------------------------------

  /** The position at a response path reports `e`; in a mutation, only when no root field before its own
      bubbles. */
  predicate ReportedAt(x: Exec, rootType: string, rootValue: PyValue, ss: seq<Selection>, mutation: bool, path: Path,
      e: Error)
    requires Finite(x)
  {
    ReportedIn(x, rootType, rootValue, Walk(x.env, rootType, ss, {}, x.incremental).nodes, [], mutation, path, e)
  }

  /** An error is recorded exactly when some executed position of the operation reports it. */
  lemma RecordedExactly(x: Exec, rootType: string, rootValue: PyValue, ss: seq<Selection>, mutation: bool, e: Error)
    requires Finite(x)
    ensures e in ExecuteOperation(x, rootType, rootValue, ss, mutation).errors
            <==> exists path: Path :: ReportedAt(x, rootType, rootValue, ss, mutation, path, e)
  {
    var nodes := Walk(x.env, rootType, ss, {}, x.incremental).nodes;
    AllKeys(nodes);
    ObjectErrorsExactly(x, rootType, rootValue, nodes, [], mutation, e);
    if rel: Path :| ReportedIn(x, rootType, rootValue, nodes, [], mutation, rel, e) {
      assert ReportedAt(x, rootType, rootValue, ss, mutation, rel, e);
    }
  }

  /** When raised errors carry no path of their own, an error's path is that of the position that reports it,
      and no path has two errors. */
  lemma RecordedAtPosition(x: Exec, rootType: string, rootValue: PyValue, ss: seq<Selection>, mutation: bool)
    requires Finite(x) && Pathless(x.world)
    ensures var errors := ExecuteOperation(x, rootType, rootValue, ss, mutation).errors;
            && (forall e <- errors :: ReportedAt(x, rootType, rootValue, ss, mutation, e.path, e))
            && PathsOnce(errors)
  {
    var nodes := Walk(x.env, rootType, ss, {}, x.incremental).nodes;
    AllKeys(nodes);
    forall e <- ExecuteOperation(x, rootType, rootValue, ss, mutation).errors
      ensures ReportedAt(x, rootType, rootValue, ss, mutation, e.path, e)
    {
      ObjectErrorsHere(x, rootType, rootValue, nodes, [], mutation, e);
      assert e.path[0..] == e.path;
    }
    ObjectOnce(x, rootType, rootValue, nodes, [], mutation);
  }

  /** Following any recorded error's path through the response meets a null at or before its end. */
  lemma ErrorsExplained(x: Exec, rootType: string, rootValue: PyValue, ss: seq<Selection>, mutation: bool, e: Error)
    requires Finite(x) && Pathless(x.world)
    requires e in ExecuteOperation(x, rootType, rootValue, ss, mutation).errors
    ensures MeetsNull(Response(x, rootType, rootValue, ss, mutation), e.path)
  {
    var nodes := Walk(x.env, rootType, ss, {}, x.incremental).nodes;
    AllKeys(nodes);
    ObjectErrorMeetsNull(x, rootType, rootValue, nodes, [], mutation, e);
    assert e.path[0..] == e.path;
  }

  /** Every null in the response, the response itself included, is one a resolver returned where the type
      allows it, or has a recorded error at or beneath it, or stands for a field its type does not have. */
  lemma NullsExplained(x: Exec, rootType: string, rootValue: PyValue, ss: seq<Selection>, mutation: bool, path: Path)
    requires Sound(x)
    requires DataAt(Response(x, rootType, rootValue, ss, mutation), path) == Some(JNull)
    ensures var p := OperationPosition(x, rootType, rootValue, ss, path);
            || (p.Some? && ReturnedNull(p.value))
            || ErrorBeneath(ExecuteOperation(x, rootType, rootValue, ss, mutation).errors, path)
            || UnknownInResponse(x, rootType, rootValue, ss, path)
  {
    var nodes := Walk(x.env, rootType, ss, {}, x.incremental).nodes;
    AllKeys(nodes);
    ObjectNullExplained(x, rootType, rootValue, nodes, [], mutation, path);
    assert [] + path == path;
  }
}
