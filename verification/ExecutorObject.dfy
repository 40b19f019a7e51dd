/** The `_Executor` object: methods that resolve fields one after the other while appending to the
    executor's error, deferred and streamed lists, proved against the functions of Executor and Delivery. */
module ExecutorObject {
  import opened Ast
  import opened Arguments
  import opened CollectFields
  import opened Executor
  import opened NullPropagation
  import opened Incremental
  import opened Delivery

  /** The executor's three lists at one moment. */
  datatype Lists = Lists(errors: seq<Error>, deferred: seq<DeferJob>, streamed: seq<StreamJob>)

  function Plus(lists: Lists, out: Out): Lists {
    Lists(lists.errors + out.errors, lists.deferred + out.deferred, lists.streamed + out.streamed)
  }

  /** How an awaited step ended and the lists it left. */
  datatype Awaited = Awaited(ending: Ending, lists: Lists)

  function Having(lists: Lists, out: Out): Awaited { Awaited(out.ending, Plus(lists, out)) }

  /** Awaiting the `rest` of the mutation fields after some have been awaited. */
  function FinishFields(entries: seq<Entry>, lists: Lists, rest: Out): Awaited
    requires rest.ending.Data? ==> rest.ending.json.JObject?
  {
    Awaited(if !rest.ending.Data? then Bubble else Data(JObject(entries + rest.ending.json.entries)), Plus(lists, rest))
  }

  lemma FinishBeside(entries: seq<Entry>, lists: Lists, key: string, h: Out, t: Out)
    requires !h.ending.Crash? && (t.ending.Bubble? || (t.ending.Data? && t.ending.json.JObject?))
    ensures h.ending.Data? ==>
              FinishFields(entries, lists, Beside(key, h, t))
                  == FinishFields(entries + [Entry(key, h.ending.json)], Plus(lists, h), t)
  {
    PlusTwice(lists, h, t);
    if h.ending.Data? && t.ending.Data? {
      assert entries + ([Entry(key, h.ending.json)] + t.ending.json.entries)
          == entries + [Entry(key, h.ending.json)] + t.ending.json.entries;
    }
  }

  lemma PlusTwice(lists: Lists, h: Out, t: Out)
    ensures Plus(lists, Out(t.ending, h.errors + t.errors, h.deferred + t.deferred, h.streamed + t.streamed))
            == Plus(Plus(lists, h), t)
  {
    assert lists.errors + (h.errors + t.errors) == lists.errors + h.errors + t.errors;
    assert lists.deferred + (h.deferred + t.deferred) == lists.deferred + h.deferred + t.deferred;
    assert lists.streamed + (h.streamed + t.streamed) == lists.streamed + h.streamed + t.streamed;
  }

  /** Adding the lists of several outcomes in order. */
  function PlusAll(lists: Lists, outs: seq<Out>): Lists {
    if outs == [] then lists else Plus(PlusAll(lists, outs[..|outs| - 1]), outs[|outs| - 1])
  }

  lemma {:induction false} PlusAllFirst(lists: Lists, outs: seq<Out>)
    requires outs != []
    ensures PlusAll(lists, outs) == PlusAll(Plus(lists, outs[0]), outs[1..])
    decreases |outs|
  {
    if |outs| > 1 {
      assert outs[..|outs| - 1][1..] == outs[1..][..|outs| - 2];
      PlusAllFirst(lists, outs[..|outs| - 1]);
    }
  }

  lemma {:induction false} PlusJoined(lists: Lists, keys: seq<string>, outs: seq<Out>)
    requires |keys| == |outs| && forall o <- outs :: !o.ending.Crash?
    ensures Plus(lists, JoinFields(keys, outs, false)) == PlusAll(lists, outs)
    decreases |outs|
  {
    if outs != [] {
      PlusTwice(lists, outs[0], JoinFields(keys[1..], outs[1..], false));
      PlusJoined(Plus(lists, outs[0]), keys[1..], outs[1..]);
      PlusAllFirst(lists, outs);
    }
  }

  /** What executing the group's field gives, on selections no bigger than `size`. */
  ghost predicate GroupRuns(x: Exec, objectType: string, source: PyValue, group: Group, path: Path, size: nat, out: Out)
  {
    && Finite(x) && group.nodes != [] && Size(group.nodes, x.weight) <= size
    && out == ExecuteField(x, objectType, source, group.nodes, path + [Key(group.key)])
  }

  lemma FinishFrom(entries: seq<Entry>, lists: Lists, keys: seq<string>, outs: seq<Out>, i: nat)
    requires i < |keys| == |outs| && forall o <- outs :: !o.ending.Crash?
    ensures FinishFields(entries, lists, JoinFrom(keys, outs, i))
            == if outs[i].ending.Bubble? then Awaited(Bubble, Plus(lists, outs[i]))
               else FinishFields(entries + [Entry(keys[i], outs[i].ending.json)], Plus(lists, outs[i]),
                 JoinFrom(keys, outs, i + 1))
  {
    FinishBeside(entries, lists, keys[i], outs[i], JoinFrom(keys, outs, i + 1));
  }

  ghost predicate ItemRuns(x: Exec, u: TypeRef, nodes: seq<Selection>, path: Path, i: nat, item: PyValue, out: Out) {
    Finite(x) && nodes != [] && out == CompleteValue(x, u, nodes, path + [Index(i)], item)
  }

  /** Serial JoinFields from index `i` on. */
  function JoinFrom(keys: seq<string>, outs: seq<Out>, i: nat): (out: Out)
    requires |keys| == |outs| && i <= |keys| && forall o <- outs :: !o.ending.Crash?
    ensures out.ending.Bubble? || (out.ending.Data? && out.ending.json.JObject?)
    ensures out == JoinFields(keys[i..], outs[i..], true)
    decreases |keys| - i
  {
    if i == |keys| then Plain(Data(JObject([])), [])
    else
      assert keys[i..][1..] == keys[i + 1..] && outs[i..][1..] == outs[i + 1..];
      if outs[i].ending.Bubble? then outs[i] else Beside(keys[i], outs[i], JoinFrom(keys, outs, i + 1))
  }

  /** With these entries and lists, awaiting the mutation fields from index `i` on gives `goal`. */
  ghost predicate Leads(keys: seq<string>, outs: seq<Out>, i: nat, entries: seq<Entry>, lists: Lists, goal: Awaited) {
    && i <= |keys| == |outs| && (forall o <- outs :: !o.ending.Crash?)
    && FinishFields(entries, lists, JoinFrom(keys, outs, i)) == goal
  }

  lemma LeadsFirst(keys: seq<string>, outs: seq<Out>, lists: Lists)
    requires |keys| == |outs| && forall o <- outs :: !o.ending.Crash?
    ensures Leads(keys, outs, 0, [], lists, Having(lists, JoinFields(keys, outs, true)))
  {
    var out := JoinFrom(keys, outs, 0);
    assert keys[0..] == keys && outs[0..] == outs;
    FinishNothing(lists, out);
  }

  lemma FinishNothing(lists: Lists, out: Out)
    requires out.ending.Bubble? || (out.ending.Data? && out.ending.json.JObject?)
    ensures FinishFields([], lists, out) == Having(lists, out)
  {
    if out.ending.Data? { assert [] + out.ending.json.entries == out.ending.json.entries; }
  }

  lemma LeadsNext(keys: seq<string>, outs: seq<Out>, i: nat, entries: seq<Entry>, lists: Lists, goal: Awaited)
    requires Leads(keys, outs, i, entries, lists, goal) && i < |keys|
    ensures if outs[i].ending.Bubble? then goal == Awaited(Bubble, Plus(lists, outs[i]))
            else Leads(keys, outs, i + 1, entries + [Entry(keys[i], outs[i].ending.json)], Plus(lists, outs[i]), goal)
  {
    FinishFrom(entries, lists, keys, outs, i);
  }

  lemma LeadsLast(keys: seq<string>, outs: seq<Out>, entries: seq<Entry>, lists: Lists, goal: Awaited)
    requires Leads(keys, outs, |keys|, entries, lists, goal)
    ensures goal == Awaited(Data(JObject(entries)), lists)
  {
    assert entries + [] == entries;
  }

  /** Awaiting the `rest` of the list items after some have been awaited. */
  function FinishItems(items: seq<Json>, bubbled: bool, crashed: bool, lists: Lists, rest: Out): Awaited
    requires rest.ending.Data? ==> rest.ending.json.JList?
  {
    Awaited(if crashed || rest.ending.Crash? then Crash
            else if bubbled || rest.ending.Bubble? then Bubble
            else Data(JList(items + rest.ending.json.items)), Plus(lists, rest))
  }

  /** JoinItems from index `i` on. */
  function ItemsFrom(outs: seq<Out>, i: nat): (out: Out)
    requires i <= |outs|
    ensures out.ending.Data? ==> out.ending.json.JList?
    ensures out == JoinItems(outs[i..])
    decreases |outs| - i
  {
    if i == |outs| then Plain(Data(JList([])), [])
    else
      assert outs[i..][1..] == outs[i + 1..];
      Ahead(outs[i], ItemsFrom(outs, i + 1))
  }

  lemma FinishAhead(items: seq<Json>, bubbled: bool, crashed: bool, lists: Lists, h: Out, t: Out)
    requires t.ending.Data? ==> t.ending.json.JList?
    ensures FinishItems(items, bubbled, crashed, lists, Ahead(h, t))
            == FinishItems(items + [if h.ending.Data? then h.ending.json else JNull],
                           bubbled || h.ending.Bubble?, crashed || h.ending.Crash?, Plus(lists, h), t)
  {
    PlusTwice(lists, h, t);
    if h.ending.Data? && t.ending.Data? {
      assert items + ([h.ending.json] + t.ending.json.items) == items + [h.ending.json] + t.ending.json.items;
    }
  }

  /** With these items and lists, awaiting the list items from index `i` on gives `goal`. */
  ghost predicate Nears(outs: seq<Out>, i: nat, items: seq<Json>, bubbled: bool, crashed: bool, lists: Lists,
      goal: Awaited)
  {
    i <= |outs| && FinishItems(items, bubbled, crashed, lists, ItemsFrom(outs, i)) == goal
  }

  lemma NearsFirst(outs: seq<Out>, lists: Lists)
    ensures Nears(outs, 0, [], false, false, lists, Having(lists, JoinItems(outs)))
  {
    var out := ItemsFrom(outs, 0);
    assert outs[0..] == outs;
    if out.ending.Data? { assert [] + out.ending.json.items == out.ending.json.items; }
  }

  lemma NearsNext(outs: seq<Out>, i: nat, items: seq<Json>, bubbled: bool, crashed: bool, lists: Lists, goal: Awaited)
    requires Nears(outs, i, items, bubbled, crashed, lists, goal) && i < |outs|
    ensures var h := outs[i];
            Nears(outs, i + 1, items + [if h.ending.Data? then h.ending.json else JNull], bubbled || h.ending.Bubble?,
              crashed || h.ending.Crash?, Plus(lists, h), goal)
  {
    FinishAhead(items, bubbled, crashed, lists, outs[i], ItemsFrom(outs, i + 1));
  }

  lemma NearsLast(outs: seq<Out>, items: seq<Json>, bubbled: bool, crashed: bool, lists: Lists, goal: Awaited)
    requires Nears(outs, |outs|, items, bubbled, crashed, lists, goal)
    ensures goal == Awaited(if crashed then Crash else if bubbled then Bubble else Data(JList(items)), lists)
  {
    assert items + [] == items;
  }

  lemma PlusWithDeferred(lists: Lists, objectType: string, value: PyValue, path: Path, sets: seq<seq<Selection>>,
      inner: Out)
    ensures Plus(lists, WithDeferred(objectType, value, path, sets, inner))
            == Plus(lists.(deferred := lists.deferred + DeferJobs(objectType, value, path, sets)), inner)
  {
    var jobs := DeferJobs(objectType, value, path, sets);
    assert lists.deferred + (jobs + inner.deferred) == lists.deferred + jobs + inner.deferred;
  }

  lemma PlusWithStream(lists: Lists, u: TypeRef, nodes: seq<Selection>, path: Path, items: seq<PyValue>, now: nat,
      inner: Out)
    requires now <= |items|
    ensures Plus(lists, WithStream(u, nodes, path, items, now, inner))
            == Plus(lists.(streamed := lists.streamed + Remainder(u, nodes, path, items, now)), inner)
  {
    var jobs := Remainder(u, nodes, path, items, now);
    assert lists.streamed + (jobs + inner.streamed) == lists.streamed + jobs + inner.streamed;
  }

  /** Collecting `ss` for one object and running what was collected. */
  function CollectedRun(x: Exec, objectType: string, source: PyValue, ss: seq<Selection>, path: Path, serial: bool): Out
    requires Finite(x)
  {
    var w := Walk(x.env, objectType, ss, {}, x.incremental);
    AllKeys(w.nodes);
    WithDeferred(objectType, source, path, w.deferred,
                 ExecuteFields(x, objectType, source, w.nodes, Keys(w.nodes), path, serial))
  }

  /** Serving the deferred queue once: the payload it yields and the queues it leaves. */
  ghost predicate DeferredTurn(x: Exec, deferred: seq<DeferJob>, streamed: seq<StreamJob>, payload: Payload,
                               d: seq<DeferJob>, s: seq<StreamJob>)
  {
    && Finite(x) && deferred != []
    && var out := ResolveDeferred(x, deferred[0]);
       && out.ending.Data? && d == deferred[1..] + out.deferred && s == streamed + out.streamed
       && payload == Payload(deferred[0].path, out.ending.json, out.errors, d != [] || s != [], false)
  }

  /** Serving the streamed queue once; no payload when the item ends the stream. */
  ghost predicate ItemTurn(x: Exec, streamed: seq<StreamJob>, payload: Option<Payload>, d: seq<DeferJob>,
      s: seq<StreamJob>)
  {
    && Finite(x) && streamed != [] && Servable(streamed)
    && var out := ResolveItem(x, streamed[0]);
       if payload.None? then out.ending.Crash?
       else && out.ending.Data? && d == out.deferred && s == Rest(streamed[0]) + streamed[1..] + out.streamed
            && payload.value == Payload(ItemPath(streamed[0]), out.ending.json, out.errors, d != [] || s != [], true)
  }

  ghost predicate Turn(x: Exec, deferred: seq<DeferJob>, streamed: seq<StreamJob>, next: Option<Payload>,
                       d: seq<DeferJob>, s: seq<StreamJob>)
  {
    if deferred != [] then next.Some? && DeferredTurn(x, deferred, streamed, next.value, d, s)
    else ItemTurn(x, streamed, next, d, s)
  }

  /** A turn takes the first payload off those still to come. */
  lemma TurnPays(x: Exec, deferred: seq<DeferJob>, streamed: seq<StreamJob>, next: Option<Payload>,
                 d: seq<DeferJob>, s: seq<StreamJob>, paid: seq<Payload>)
    requires Finite(x) && Servable(streamed) && Turn(x, deferred, streamed, next, d, s)
    ensures next.None? ==> Payloads(x, deferred, streamed) == [] && paid + [] == paid
    ensures next.Some? ==> Servable(s) && Pending(x, d, s) < Pending(x, deferred, streamed)
    ensures next.Some? ==> paid + Payloads(x, deferred, streamed) == paid + [next.value] + Payloads(x, d, s)
  {
    if deferred != [] {
      DeferredTurnPays(x, deferred, streamed, next.value, d, s);
    } else {
      ItemTurnPays(x, streamed, next, d, s);
    }
    if next.Some? { PaidFirst(paid, Payloads(x, deferred, streamed), next.value, Payloads(x, d, s)); }
  }

  lemma PaidFirst(paid: seq<Payload>, due: seq<Payload>, payload: Payload, rest: seq<Payload>)
    requires due == [payload] + rest
    ensures paid + due == paid + [payload] + rest
  {
  }

  lemma DeferredTurnPays(x: Exec, deferred: seq<DeferJob>, streamed: seq<StreamJob>, payload: Payload,
                         d: seq<DeferJob>, s: seq<StreamJob>)
    requires DeferredTurn(x, deferred, streamed, payload, d, s) && Servable(streamed)
    ensures Servable(s) && Pending(x, d, s) < Pending(x, deferred, streamed)
    ensures Payloads(x, deferred, streamed) == [payload] + Payloads(x, d, s)
  {
    DeferredStep(x, deferred, streamed);
  }

  lemma ItemTurnPays(x: Exec, streamed: seq<StreamJob>, next: Option<Payload>, d: seq<DeferJob>, s: seq<StreamJob>)
    requires ItemTurn(x, streamed, next, d, s)
    ensures next.None? ==> Payloads(x, [], streamed) == []
    ensures next.Some? ==> Servable(s) && Pending(x, d, s) < Pending(x, [], streamed)
    ensures next.Some? ==> Payloads(x, [], streamed) == [next.value] + Payloads(x, d, s)
  {
    ItemStep(x, streamed);
  }

  class ExecutorState {
    const x: Exec
    var errors: seq<Error>
    var deferred: seq<DeferJob>
    var streamed: seq<StreamJob>

    constructor (x: Exec)
      ensures this.x == x && Now() == Lists([], [], [])
    {
      this.x := x;
      errors, deferred, streamed := [], [], [];
    }

    ghost function Now(): Lists
      reads this
    {
      Lists(errors, deferred, streamed)
    }

    /** `_record`. */
    method Record(preset: Option<Path>, path: Path, cause: Cause)
      modifies this`errors
      ensures errors == old(errors) + [Error(Located(preset, path), cause)]
    {
      errors := errors + [Error(if preset.Some? then preset.value else path, cause)];
    }

    /** `_execute_fields`: the groups of `nodes`, in order. */
    method ExecuteFieldGroups(objectType: string, source: PyValue, grouped: seq<Group>, path: Path, serial: bool,
                              ghost nodes: seq<Selection>)
      returns (ending: Ending)
      requires Finite(x) && HoldsGroups(grouped, nodes)
      modifies this
      ensures KeysOf(Keys(nodes), nodes)
      ensures var out := ExecuteFields(x, objectType, source, nodes, Keys(nodes), path, serial);
              Awaited(ending, Now()) == Having(old(Now()), out)
      decreases Size(nodes, x.weight), 5
    {
      AllKeys(nodes);
      ghost var keys := Keys(nodes);
      ghost var outs := FieldOuts(x, objectType, source, nodes, keys, path);
      FieldsJoin(x, objectType, source, nodes, keys, path, serial);
      forall i | 0 <= i < |grouped| ensures GroupRuns(x, objectType, source, grouped[i], path, Size(nodes, x.weight),
        outs[i]) {
        assert keys[i] in keys && outs[i] == FieldOut(x, objectType, source, nodes, path, keys[i]);
        SizeUnder(nodes, keys[i], x.weight);
      }
      ghost var size, lists := Size(nodes, x.weight), Now();
      if serial {
        ending := RunSerially(objectType, source, grouped, path, keys, outs, size);
      } else {
        var endings := GatherFields(objectType, source, grouped, path, outs, size);
        ending := Zip(grouped, endings, keys, outs);
        PlusJoined(lists, keys, outs);
      }
    }

    /** Mutation fields one after the other; the first bubble ends the run. */
    method RunSerially(objectType: string, source: PyValue, grouped: seq<Group>, path: Path,
                       ghost keys: seq<string>, ghost outs: seq<Out>, ghost size: nat)
      returns (ending: Ending)
      requires Finite(x) && |keys| == |outs| == |grouped| && forall o <- outs :: !o.ending.Crash?
      requires forall i | 0 <= i < |grouped| ::
                 keys[i] == grouped[i].key
                 && GroupRuns(x, objectType, source, grouped[i], path, size, outs[i])
      modifies this
      ensures Awaited(ending, Now()) == Having(old(Now()), JoinFields(keys, outs, true))
      decreases size, 4
    {
      var entries := [];
      ghost var goal := Having(Now(), JoinFields(keys, outs, true));
      LeadsFirst(keys, outs, Now());
      for i := 0 to |grouped|
        invariant Leads(keys, outs, i, entries, Now(), goal)
      {
        ghost var before := Now();
        assert outs[i] in outs;
        LeadsNext(keys, outs, i, entries, before, goal);
        var one := ExecuteGroup(objectType, source, grouped[i], path, size, outs[i]);
        assert one == outs[i].ending && Now() == Plus(before, outs[i]);
        if one.Bubble? { return Bubble; }
        entries := entries + [Entry(grouped[i].key, one.json)];
      }
      LeadsLast(keys, outs, entries, Now(), goal);
      ending := Data(JObject(entries));
    }

    /** Sibling fields awaited together. */
    method GatherFields(objectType: string, source: PyValue, grouped: seq<Group>, path: Path, ghost outs: seq<Out>,
        ghost size: nat)
      returns (endings: seq<Ending>)
      requires Finite(x) && |outs| == |grouped|
      requires forall i | 0 <= i < |grouped| :: GroupRuns(x, objectType, source, grouped[i], path, size, outs[i])
      modifies this
      ensures |endings| == |outs| && forall i | 0 <= i < |outs| :: endings[i] == outs[i].ending
      ensures Now() == PlusAll(old(Now()), outs)
      decreases size, 4
    {
      endings := [];
      for i := 0 to |grouped|
        invariant |endings| == i && forall j | 0 <= j < i :: endings[j] == outs[j].ending
        invariant Now() == PlusAll(old(Now()), outs[..i])
      {
        assert outs[..i + 1][..i] == outs[..i];
        var one := ExecuteGroup(objectType, source, grouped[i], path, size, outs[i]);
        endings := endings + [one];
      }
      assert outs[..|grouped|] == outs;
    }

    /** The results of gathered fields by key; one bubble makes them all bubble. */
    method Zip(grouped: seq<Group>, endings: seq<Ending>, ghost keys: seq<string>, ghost outs: seq<Out>)
      returns (ending: Ending)
      requires |keys| == |outs| == |grouped| == |endings| && forall o <- outs :: !o.ending.Crash?
      requires forall i | 0 <= i < |grouped| :: keys[i] == grouped[i].key && endings[i] == outs[i].ending
      ensures ending == JoinFields(keys, outs, false).ending
    {
      var entries: seq<Entry>, bubbled := [], false;
      for i := 0 to |endings|
        invariant |entries| == i && bubbled == exists j | 0 <= j < i :: endings[j].Bubble?
        invariant forall j | 0 <= j < i ::
                    entries[j].key == keys[j]
                    && (endings[j].Data? ==> entries[j].value == endings[j].json)
      {
        assert outs[i] in outs;
        bubbled := bubbled || endings[i].Bubble?;
        entries := entries + [Entry(grouped[i].key, if endings[i].Bubble? then JNull else endings[i].json)];
      }
      ending := if bubbled then Bubble else Data(JObject(entries));
      JoinedFields(keys, outs, false);
      if !bubbled {
        assert forall o <- outs :: !o.ending.Bubble?;
        assert entries == JoinFields(keys, outs, false).ending.json.entries;
      } else {
        var j :| 0 <= j < |endings| && endings[j].Bubble?;
        assert outs[j] in outs;
      }
    }

    method ExecuteGroup(objectType: string, source: PyValue, group: Group, path: Path, ghost size: nat, ghost out: Out)
      returns (ending: Ending)
      requires GroupRuns(x, objectType, source, group, path, size, out)
      modifies this
      ensures Awaited(ending, Now()) == Having(old(Now()), out)
      decreases size, 3
    {
      ending := ExecuteOneField(objectType, source, group.nodes, path + [Key(group.key)]);
    }

    /** `_execute_field`. */
    method ExecuteOneField(objectType: string, source: PyValue, nodes: seq<Selection>, path: Path)
      returns (ending: Ending)
      requires Finite(x) && nodes != []
      modifies this
      ensures var out := ExecuteField(x, objectType, source, nodes, path);
              Awaited(ending, Now()) == Having(old(Now()), out)
      decreases Size(nodes, x.weight), 2
    {
      var node := nodes[0];
      if !node.Field? { return Data(JNull); }
      if node.name == "__typename" { return Data(JName(objectType)); }
      if node.name !in FieldTypes(x.env, objectType) { return Data(JNull); }
      var t := FieldTypes(x.env, objectType)[node.name];
      match x.world.resolve(objectType, node.name, ArgumentsMap(node.arguments), source, path)
      case Raised(preset) =>
        Record(preset, path, ResolverFailed);
        ending := NullOrBubble(t);
      case Returned(value) =>
        ending := CompleteOneValue(t, nodes, path, value);
        if ending.Crash? {
          Record(None, path, Unexpected);
          ending := NullOrBubble(t);
        }
    }

    /** `_complete_value`. */
    method CompleteOneValue(t: TypeRef, nodes: seq<Selection>, path: Path, value: PyValue) returns (ending: Ending)
      requires Finite(x) && nodes != []
      modifies this
      ensures var out := CompleteValue(x, t, nodes, path, value);
              Awaited(ending, Now()) == Having(old(Now()), out)
      decreases Size(nodes, x.weight), 1, t, 0
    {
      match t
      case NonNull(u) =>
        ending := CompleteOneValue(u, nodes, path, value);
        if ending == Data(JNull) {
          if value.PyNull? { Record(None, path, CannotReturnNull); }
          ending := Bubble;
        }
      case ListType(u) =>
        if value.PyNull? { return Data(JNull); }
        ending := CompleteOneList(u, nodes, path, value);
      case NamedType(name) =>
        if value.PyNull? { return Data(JNull); }
        if IsLeaf(x.env, name) {
          match x.world.serialize(name, value)
          case Emitted(Some(atom)) => return Data(JAtom(atom));
          case Emitted(None) => return Data(JNull);
          case Crashed => return Crash;
          case Refused(preset) =>
            Record(preset, path, LeafRefused);
            return Data(JNull);
        }
        if !IsComposite(x.env, name) { return Data(JNull); }
        match ConcreteType(x, name, value)
        case RuntimeCrashed => return Crash;
        case Inferred(None) =>
          Record(None, path, NoRuntimeType);
          return Data(JNull);
        case Inferred(Some(objectType)) => ending := CompleteOneObject(name, objectType, nodes, path, value);
    }

    /** `_complete_list`. */
    method CompleteOneList(u: TypeRef, nodes: seq<Selection>, path: Path, value: PyValue) returns (ending: Ending)
      requires Finite(x) && nodes != [] && !value.PyNull?
      modifies this
      ensures var out := CompleteValue(x, ListType(u), nodes, path, value);
              Awaited(ending, Now()) == Having(old(Now()), out)
      decreases Size(nodes, x.weight), 1, u, 4
    {
      if !value.PyList? {
        Record(None, path, ExpectedList);
        return Data(JNull);
      }
      var items := value.items;
      var now := if x.incremental then Initial(x, nodes[0], items) else |items|;
      PlusWithStream(Now(), u, nodes, path, items, now, CompleteItems(x, u, nodes, path, items[..now], 0));
      if now < |items| {
        streamed := streamed + [StreamJob(u, nodes, path, items[now..], now)];
      }
      ending := CompleteAllItems(u, nodes, path, items[..now]);
    }

    method CompleteAllItems(u: TypeRef, nodes: seq<Selection>, path: Path, items: seq<PyValue>) returns (ending: Ending)
      requires Finite(x) && nodes != []
      modifies this
      ensures var out := CompleteItems(x, u, nodes, path, items, 0);
              Awaited(ending, Now()) == Having(old(Now()), out)
      decreases Size(nodes, x.weight), 1, u, 3
    {
      ghost var outs := ItemOuts(x, u, nodes, path, items, 0);
      ItemsJoin(x, u, nodes, path, items, 0);
      ending := AwaitItems(u, nodes, path, items, outs);
    }

    method AwaitItems(u: TypeRef, nodes: seq<Selection>, path: Path, items: seq<PyValue>, ghost outs: seq<Out>)
      returns (ending: Ending)
      requires Finite(x) && nodes != [] && |outs| == |items|
      requires forall i | 0 <= i < |items| :: ItemRuns(x, u, nodes, path, i, items[i], outs[i])
      modifies this
      ensures Awaited(ending, Now()) == Having(old(Now()), JoinItems(outs))
      decreases Size(nodes, x.weight), 1, u, 2
    {
      ghost var goal := Having(Now(), JoinItems(outs));
      var done, bubbled, crashed := [], false, false;
      NearsFirst(outs, Now());
      for i := 0 to |items|
        invariant Nears(outs, i, done, bubbled, crashed, Now(), goal)
      {
        ghost var before := Now();
        NearsNext(outs, i, done, bubbled, crashed, before, goal);
        var one := CompleteItem(u, nodes, path, i, items[i], outs[i]);
        assert one == outs[i].ending && Now() == Plus(before, outs[i]);
        done := done + [if one.Data? then one.json else JNull];
        bubbled := bubbled || one.Bubble?;
        crashed := crashed || one.Crash?;
      }
      NearsLast(outs, done, bubbled, crashed, Now(), goal);
      ending := if crashed then Crash else if bubbled then Bubble else Data(JList(done));
    }

    method CompleteItem(u: TypeRef, nodes: seq<Selection>, path: Path, i: nat, item: PyValue, ghost out: Out)
      returns (ending: Ending)
      requires Finite(x) && nodes != [] && ItemRuns(x, u, nodes, path, i, item, out)
      modifies this
      ensures Awaited(ending, Now()) == Having(old(Now()), out)
      decreases Size(nodes, x.weight), 1, u, 1
    {
      ending := CompleteOneValue(u, nodes, path + [Index(i)], item);
    }

    method CompleteOneObject(name: string, objectType: string, nodes: seq<Selection>, path: Path, value: PyValue)
      returns (ending: Ending)
      requires Finite(x) && nodes != [] && !value.PyNull? && !IsLeaf(x.env, name) && IsComposite(x.env, name)
      requires ConcreteType(x, name, value) == Inferred(Some(objectType))
      modifies this
      ensures var out := CompleteValue(x, NamedType(name), nodes, path, value);
              Awaited(ending, Now()) == Having(old(Now()), out)
      decreases Size(nodes, x.weight), 0
    {
      ghost var w := SubWalk(x, objectType, nodes);
      ObjectParts(x, name, objectType, nodes, path, value);
      SubWalkSize(x, objectType, nodes);
      PlusWithDeferred(Now(), objectType, value, path, w.deferred,
                       ExecuteFields(x, objectType, value, w.nodes, Keys(w.nodes), path, false));
      var grouped, sets := CollectSubfields(objectType, nodes);
      deferred := deferred + DeferJobs(objectType, value, path, sets);
      ending := ExecuteFieldGroups(objectType, value, grouped, path, false, w.nodes);
      if ending.Bubble? { ending := Data(JNull); }
    }

    /** `_collect_subfields`: one collector per field node, merged key by key. */
    method CollectSubfields(objectType: string, nodes: seq<Selection>)
      returns (merged: seq<Group>, sets: seq<seq<Selection>>)
      ensures var w := SubWalk(x, objectType, nodes);
              HoldsGroups(merged, w.nodes) && sets == w.deferred
    {
      merged, sets := [], [];
      assert nodes[0..] == nodes;
      for i := 0 to |nodes|
        invariant Collected(merged, sets, SubWalk(x, objectType, nodes[i..]))
                  == Collected([], [], SubWalk(x, objectType, nodes))
      {
        assert nodes[i..][0] == nodes[i] && nodes[i..][1..] == nodes[i + 1..];
        ghost var here := NodeWalk(x, objectType, nodes[i]);
        CollectedMore(merged, sets, here, SubWalk(x, objectType, nodes[i + 1..]));
        assert sets + [] == sets;
        if nodes[i].Field? && nodes[i].selectionSet.SelectionSet? {
          var sub := new FieldCollector();
          sub.Collect(x.env, objectType, nodes[i].selectionSet.selections, x.incremental);
          assert sub.deferred == here.deferred && sub.grouped == AddNodes([], here.nodes);
          merged := MergeGroups(merged, sub.grouped, NodeWalk(x, objectType, nodes[i]).nodes);
          sets := sets + sub.deferred;
        }
      }
      assert nodes[|nodes|..] == [] && sets + [] == sets
          && [] + SubWalk(x, objectType, nodes).deferred == SubWalk(x, objectType, nodes).deferred;
      GroupsMeaning(SubWalk(x, objectType, nodes).nodes);
    }

    /** `execute_operation` on a configured root type. */
    method RunOperation(rootType: string, rootValue: PyValue, ss: seq<Selection>, mutation: bool)
      returns (ending: Ending)
      requires Finite(x)
      modifies this
      ensures var out := ExecuteOperation(x, rootType, rootValue, ss, mutation);
              Awaited(ending, Now()) == Having(old(Now()), out)
    {
      ending := CollectAndRun(rootType, rootValue, ss, [], mutation);
    }

    /** Collecting one selection set, queueing what it defers, running its groups; a bubble stops here. */
    method CollectAndRun(objectType: string, source: PyValue, ss: seq<Selection>, path: Path, serial: bool)
      returns (ending: Ending)
      requires Finite(x)
      modifies this
      ensures var out := CollectedRun(x, objectType, source, ss, path, serial);
              Awaited(ending, Now()) == Having(old(Now()), out)
    {
      ghost var w := Walk(x.env, objectType, ss, {}, x.incremental);
      AllKeys(w.nodes);
      PlusWithDeferred(Now(), objectType, source, path, w.deferred,
                       ExecuteFields(x, objectType, source, w.nodes, Keys(w.nodes), path, serial));
      var grouped, sets := CollectSelections(objectType, ss);
      deferred := deferred + DeferJobs(objectType, source, path, sets);
      ending := ExecuteFieldGroups(objectType, source, grouped, path, serial, w.nodes);
      if ending.Bubble? { ending := Data(JNull); }
    }

    /** `collect_fields` on a fresh mapping, with a list for deferred fragments when incremental. */
    method CollectSelections(objectType: string, ss: seq<Selection>)
      returns (grouped: seq<Group>, sets: seq<seq<Selection>>)
      ensures var w := Walk(x.env, objectType, ss, {}, x.incremental);
              HoldsGroups(grouped, w.nodes) && sets == w.deferred
    {
      var collector := new FieldCollector();
      collector.Collect(x.env, objectType, ss, x.incremental);
      grouped, sets := collector.grouped, collector.deferred;
      ghost var w := Walk(x.env, objectType, ss, {}, x.incremental);
      assert [] + w.deferred == w.deferred;
      GroupsMeaning(w.nodes);
    }

    /** `_resolve_deferred`, the job already taken off the queue. */
    method ResolveDeferredJob(job: DeferJob) returns (data: Json)
      requires Finite(x)
      modifies this
      ensures var out := ResolveDeferred(x, job);
              Awaited(Data(data), Now()) == Having(old(Now()), out)
    {
      var ending := CollectAndRun(job.objectType, job.source, job.selections, job.path, false);
      data := ending.json;
    }

    /** `_resolve_stream_item`: the head job stays in place while its next item is completed, then it
        advances or, when it is used up, leaves. `None` is the exception that ends the generator. */
    method ResolveStreamItem() returns (data: Option<Json>)
      requires Finite(x) && streamed != [] && Servable(streamed)
      modifies this
      ensures var out := ResolveItem(x, old(streamed[0]));
              && errors == old(errors) + out.errors
              && (data.None? <==> out.ending.Crash?)
              && (data.Some? ==> out.ending == Data(data.value) && deferred == old(deferred) + out.deferred)
              && (data.Some? ==> streamed == Rest(old(streamed[0])) + old(streamed[1..]) + out.streamed)
    {
      var job := streamed[0];
      var index := job.next;
      var item := job.items[0];
      ghost var behind := streamed[1..];
      streamed := streamed[0 := job.(items := job.items[1..])];
      var ending := CompleteOneValue(job.ofType, job.nodes, job.path + [Index(index)], item);
      if ending.Crash? { return None; }
      job := streamed[0];
      job := job.(next := job.next + 1);
      streamed := if job.items == [] then streamed[1..] else streamed[0 := job];
      data := Some(if ending.Bubble? then JNull else ending.json);
    }

    /** `run_incremental`: the payloads yielded, in order. */
    method RunIncrementally(rootType: string, rootValue: PyValue, ss: seq<Selection>, mutation: bool)
      returns (payloads: seq<Payload>)
      requires Finite(x) && Now() == Lists([], [], [])
      modifies this
      ensures payloads == RunIncremental(x, rootType, rootValue, ss, mutation)
    {
      OperationServable(x, rootType, rootValue, ss, mutation);
      ghost var out := ExecuteOperation(x, rootType, rootValue, ss, mutation);
      assert [] + out.errors == out.errors && [] + out.deferred == out.deferred && [] + out.streamed == out.streamed;
      var ending := RunOperation(rootType, rootValue, ss, mutation);
      var first := Payload([], ending.json, errors, deferred != [] || streamed != [], false);
      var later := RunJobs();
      payloads := [first] + later;
    }

    /** The payload loop. */
    method RunJobs() returns (payloads: seq<Payload>)
      requires Finite(x) && Servable(streamed)
      modifies this
      ensures payloads == old(Payloads(x, deferred, streamed))
    {
      payloads := [];
      ghost var goal := Payloads(x, deferred, streamed);
      while deferred != [] || streamed != []
        invariant Servable(streamed) && payloads + Payloads(x, deferred, streamed) == goal
        decreases Pending(x, deferred, streamed)
      {
        ghost var d, s := deferred, streamed;
        var next := NextPayload();
        TurnPays(x, d, s, next, deferred, streamed, payloads);
        if next.None? { return; }
        payloads := payloads + [next.value];
      }
    }

    /** One turn of the payload loop: a deferred fragment when there is one, otherwise a streamed item. */
    method NextPayload() returns (next: Option<Payload>)
      requires Finite(x) && Servable(streamed) && (deferred != [] || streamed != [])
      modifies this
      ensures Turn(x, old(deferred), old(streamed), next, deferred, streamed)
    {
      errors := [];
      if deferred != [] {
        var payload := NextDeferred();
        next := Some(payload);
      } else {
        next := NextItem();
      }
    }

    /** A turn of the payload loop that serves the deferred queue. */
    method NextDeferred() returns (payload: Payload)
      requires Finite(x) && Servable(streamed) && deferred != [] && errors == []
      modifies this
      ensures DeferredTurn(x, old(deferred), old(streamed), payload, deferred, streamed)
    {
      var job := deferred[0];
      deferred := deferred[1..];
      var data := ResolveDeferredJob(job);
      payload := Payload(job.path, data, errors, deferred != [] || streamed != [], false);
    }

    /** A turn of the payload loop that serves the streamed queue. */
    method NextItem() returns (payload: Option<Payload>)
      requires Finite(x) && Servable(streamed) && streamed != [] && deferred == [] && errors == []
      modifies this
      ensures ItemTurn(x, old(streamed), payload, deferred, streamed)
    {
      var job := streamed[0];
      var data := ResolveStreamItem();
      if data.None? { return None; }
      payload := Some(Payload(job.path + [Index(job.next)], data.value, errors, deferred != [] || streamed != [],
          true));
    }

    /** `merged.setdefault(key, []).extend(nodes)` for each group of one node's collection. */
    method MergeGroups(into: seq<Group>, sub: seq<Group>, ghost nodes: seq<Selection>) returns (merged: seq<Group>)
      requires sub == AddNodes([], nodes)
      ensures merged == AddNodes(into, nodes)
    {
      merged := into;
      assert sub[..0] == [];
      for i := 0 to |sub|
        invariant merged == ExtendAll(into, sub[..i])
      {
        assert sub[..i + 1][..i] == sub[..i];
        merged := Extend(merged, sub[i].key, sub[i].nodes);
      }
      assert sub[..|sub|] == sub;
      MergedIsAdded(into, nodes);
    }
  }

  /** The merged mapping and deferred sets once `w` has been added. */
  function Collected(merged: seq<Group>, sets: seq<seq<Selection>>, w: Walked): (seq<Group>, seq<seq<Selection>>) {
    (AddNodes(merged, w.nodes), sets + w.deferred)
  }

  lemma CollectedMore(merged: seq<Group>, sets: seq<seq<Selection>>, h: Walked, t: Walked)
    ensures Collected(merged, sets, Walked(h.nodes + t.nodes, {}, h.deferred + t.deferred))
            == Collected(AddNodes(merged, h.nodes), sets + h.deferred, t)
  {
    AddNodesConcat(merged, h.nodes, t.nodes);
    assert sets + (h.deferred + t.deferred) == (sets + h.deferred) + t.deferred;
  }

  /** Extending group by group. */
  function ExtendAll(into: seq<Group>, sub: seq<Group>): seq<Group>
    decreases |sub|
  {
    if sub == [] then into
    else
      var last := sub[|sub| - 1];
      Extend(ExtendAll(into, sub[..|sub| - 1]), last.key, last.nodes)
  }

  lemma {:induction false} IndexIs(groups: seq<Group>, key: string, i: nat)
    requires i <= |groups| && (forall j | 0 <= j < i :: groups[j].key != key) && (i < |groups| ==> groups[i].key == key)
    ensures IndexOf(groups, key) == i
  {
    if i > 0 { IndexIs(groups[1..], key, i - 1); }
  }

  lemma ExtendTwice(groups: seq<Group>, key: string, a: seq<Selection>, b: seq<Selection>)
    ensures Extend(Extend(groups, key, a), key, b) == Extend(groups, key, a + b)
  {
    IndexIs(Extend(groups, key, a), key, IndexOf(groups, key));
    var i := IndexOf(groups, key);
    if i < |groups| { assert groups[i].nodes + a + b == groups[i].nodes + (a + b); }
  }

  lemma ExtendSwap(groups: seq<Group>, key: string, a: seq<Selection>, other: string, b: seq<Selection>)
    requires key != other && IndexOf(groups, key) < |groups|
    ensures Extend(Extend(groups, key, a), other, b) == Extend(Extend(groups, other, b), key, a)
  {
    var i, j := IndexOf(groups, key), IndexOf(groups, other);
    IndexIs(Extend(groups, key, a), other, j);
    IndexIs(Extend(groups, other, b), key, i);
    assert i != j;
  }

  /** A key once present stays present. */
  lemma ExtendKeeps(groups: seq<Group>, key: string, nodes: seq<Selection>, other: string)
    requires IndexOf(groups, other) < |groups| || other == key
    ensures IndexOf(Extend(groups, key, nodes), other) < |Extend(groups, key, nodes)|
  {
    IndexIs(Extend(groups, key, nodes), other, IndexOf(groups, other));
  }

  lemma {:induction false} ExtendAllHas(into: seq<Group>, sub: seq<Group>, j: nat)
    requires j < |sub|
    ensures IndexOf(ExtendAll(into, sub), sub[j].key) < |ExtendAll(into, sub)|
    decreases |sub|
  {
    var last := sub[|sub| - 1];
    if j < |sub| - 1 { ExtendAllHas(into, sub[..|sub| - 1], j); }
    ExtendKeeps(ExtendAll(into, sub[..|sub| - 1]), last.key, last.nodes, sub[j].key);
  }

  /** Adding one node before merging or after makes no difference. */
  lemma {:induction false} ExtendAllExtend(into: seq<Group>, sub: seq<Group>, key: string, node: Selection)
    requires forall i, j | 0 <= i < j < |sub| :: sub[i].key != sub[j].key
    ensures ExtendAll(into, Extend(sub, key, [node])) == Extend(ExtendAll(into, sub), key, [node])
    decreases |sub|
  {
    var i := IndexOf(sub, key);
    var more := Extend(sub, key, [node]);
    if i == |sub| {
      assert more[..|more| - 1] == sub;
    } else {
      var front, last := sub[..|sub| - 1], sub[|sub| - 1];
      var before := ExtendAll(into, front);
      if i == |sub| - 1 {
        assert more[..|more| - 1] == front;
        ExtendTwice(before, key, last.nodes, [node]);
      } else {
        IndexIs(front, key, i);
        assert more[..|more| - 1] == Extend(front, key, [node]);
        ExtendAllExtend(into, front, key, node);
        ExtendAllHas(into, front, i);
        ExtendSwap(before, key, [node], last.key, last.nodes);
      }
    }
  }

  /** Merging a mapping group by group is appending its nodes one by one. */
  lemma {:induction false} MergedIsAdded(into: seq<Group>, nodes: seq<Selection>)
    ensures ExtendAll(into, AddNodes([], nodes)) == AddNodes(into, nodes)
    decreases |nodes|
  {
    if nodes != [] {
      var front, last := nodes[..|nodes| - 1], nodes[|nodes| - 1];
      MergedIsAdded(into, front);
      GroupsMeaning(front);
      KeysExact(front);
      ExtendAllExtend(into, AddNodes([], front), ResponseKey(last), last);
    }
  }
}
