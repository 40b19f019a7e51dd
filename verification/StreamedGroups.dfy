/** Which lists an operation streams: every group of field nodes collected anywhere, inside deferred fragments
    and below streamed items too, whose first node asks for it. Where each such list stands in the one-shot
    response, and that execution leaves exactly these stream jobs. */
module StreamedGroups {
  import Arguments
  import opened Ast
  import opened CollectFields
  import opened Executor
  import opened NullPropagation
  import opened Reports
  import opened Gist
  import opened Incremental
  import opened Delivery

  // ----- the lists a group leads to ---------------------------------------------------------------

  /** The stream jobs of the groups that the selections, the deferred ones among them included, yield on an
      object; one job per group and list. */
  function SiteStreams(x: Exec, objectType: string, source: PyValue, path: Path,
      ss: seq<Selection>): multiset<StreamJob>
    requires Finite(x)
    decreases Size(ss, x.weight), 4
  {
    var w := Walk(x.env, objectType, ss, {}, x.incremental);
    WalkSize(x, objectType, ss, {});
    AllKeys(w.nodes);
    GroupsStream(x, objectType, source, w.nodes, Keys(w.nodes), path)
    + SitesStream(x, objectType, source, path, w.deferred)
  }

  function SitesStream(x: Exec, objectType: string, source: PyValue, path: Path,
      sets: seq<seq<Selection>>): multiset<StreamJob>
    requires Finite(x)
    decreases SizeAll(sets, x.weight), 3
  {
    if sets == [] then multiset{}
    else SiteStreams(x, objectType, source, path, sets[0]) + SitesStream(x, objectType, source, path, sets[1..])
  }

  function GroupsStream(x: Exec, objectType: string, source: PyValue, nodes: seq<Selection>, keys: seq<string>,
      path: Path)
    : multiset<StreamJob>
    requires Finite(x) && KeysOf(keys, nodes)
    decreases Size(nodes, x.weight), 3, |keys|
  {
    if keys == [] then multiset{}
    else
      SizeUnder(nodes, keys[0], x.weight);
      FieldStreams(x, objectType, source, Under(nodes, keys[0]), path + [Key(keys[0])])
      + GroupsStream(x, objectType, source, nodes, keys[1..], path)
  }

  function FieldStreams(x: Exec, objectType: string, source: PyValue, nodes: seq<Selection>,
      path: Path): multiset<StreamJob>
    requires Finite(x) && nodes != []
    decreases Size(nodes, x.weight), 2
  {
    var node := nodes[0];
    if !node.Field? || node.name == "__typename" || node.name !in FieldTypes(x.env, objectType) then multiset{}
    else
      match x.world.resolve(objectType, node.name, Arguments.ArgumentsMap(node.arguments), source, path)
      case Raised(_) => multiset{}
      case Returned(value) => ValueStreams(x, FieldTypes(x.env, objectType)[node.name], nodes, path, value)
  }

  /** A list is streamed from the initial count its group's first node asks for, when more is left; its items
      lead to further lists, whenever they are delivered. */
  function ValueStreams(x: Exec, t: TypeRef, nodes: seq<Selection>, path: Path, value: PyValue): multiset<StreamJob>
    requires Finite(x) && nodes != []
    decreases Size(nodes, x.weight), 1, t, 1
  {
    match t
    case NonNull(u) => ValueStreams(x, u, nodes, path, value)
    case ListType(u) => if value.PyList? then ListStreams(x, u, nodes, path, value.items) else multiset{}
    case NamedType(name) =>
      if value.PyNull? || IsLeaf(x.env, name) || !IsComposite(x.env, name) then multiset{}
      else
        match ConcreteType(x, name, value)
        case Inferred(Some(objectType)) =>
          var w := SubWalk(x, objectType, nodes);
          SubWalkSize(x, objectType, nodes);
          AllKeys(w.nodes);
          GroupsStream(x, objectType, value, w.nodes, Keys(w.nodes), path)
              + SitesStream(x, objectType, value, path, w.deferred)
        case _ => multiset{}
  }

  function ListStreams(x: Exec, u: TypeRef, nodes: seq<Selection>, path: Path, items: seq<PyValue>): multiset<StreamJob>
    requires Finite(x) && nodes != []
    decreases Size(nodes, x.weight), 1, u, 3 + |items|
  {
    multiset(Remainder(u, nodes, path, items, if x.incremental then Initial(x, nodes[0], items) else |items|))
    + ItemsStream(x, u, nodes, path, items, 0)
  }

  function ItemsStream(x: Exec, t: TypeRef, nodes: seq<Selection>, path: Path, items: seq<PyValue>,
      from: nat): multiset<StreamJob>
    requires Finite(x) && nodes != []
    decreases Size(nodes, x.weight), 1, t, 2 + |items|
  {
    if items == [] then multiset{}
    else
      ValueStreams(x, t, nodes, path + [Index(from)], items[0]) + ItemsStream(x, t, nodes, path, items[1..], from + 1)
  }

  lemma {:induction false} ItemsSplit(x: Exec, t: TypeRef, nodes: seq<Selection>, path: Path, items: seq<PyValue>,
      from: nat, now: nat)
    requires Finite(x) && nodes != [] && now <= |items|
    ensures ItemsStream(x, t, nodes, path, items, from)
            == ItemsStream(x, t, nodes, path, items[..now], from)
                + ItemsStream(x, t, nodes, path, items[now..], from + now)
    decreases |items|
  {
    if now > 0 {
      var rest := items[1..];
      HeadTaken(items, now);
      ItemsSplit(x, t, nodes, path, rest, from + 1, now - 1);
      ItemsLonger(x, t, nodes, path, items[0], rest, rest[..now - 1], items[now..], from, from + now);
    } else {
      assert items[..now] == [] && items[now..] == items;
    }
  }

  lemma HeadTaken<T>(items: seq<T>, now: nat)
    requires 0 < now <= |items|
    ensures items == [items[0]] + items[1..] && items[..now] == [items[0]] + items[1..][..now - 1]
    ensures items[now..] == items[1..][now - 1..]
  {
  }

  lemma ItemsLonger(x: Exec, t: TypeRef, nodes: seq<Selection>, path: Path, item: PyValue,
                    all: seq<PyValue>, front: seq<PyValue>, back: seq<PyValue>, from: nat, next: nat)
    requires Finite(x) && nodes != []
    requires ItemsStream(x, t, nodes, path, all, from + 1)
             == ItemsStream(x, t, nodes, path, front, from + 1) + ItemsStream(x, t, nodes, path, back, next)
    ensures ItemsStream(x, t, nodes, path, [item] + all, from)
            == ItemsStream(x, t, nodes, path, [item] + front, from) + ItemsStream(x, t, nodes, path, back, next)
  {
    assert ([item] + all)[1..] == all && ([item] + front)[1..] == front;
    var head := ValueStreams(x, t, nodes, path + [Index(from)], item);
    Reassociate(head, ItemsStream(x, t, nodes, path, front, from + 1), ItemsStream(x, t, nodes, path, back, next));
  }

  lemma Reassociate(a: multiset<StreamJob>, b: multiset<StreamJob>, c: multiset<StreamJob>)
    ensures a + (b + c) == a + b + c
  {
  }

  // ----- execution leaves exactly these jobs ---------------------------------------------------------

  /** The lists that pending jobs will still begin to stream. */
  function Due(x: Exec, deferred: seq<DeferJob>, streamed: seq<StreamJob>): multiset<StreamJob>
    requires Finite(x) && Servable(streamed)
  {
    DeferredDue(x, deferred) + StreamedDue(x, streamed)
  }

  function DeferredDue(x: Exec, deferred: seq<DeferJob>): multiset<StreamJob>
    requires Finite(x)
  {
    if deferred == [] then multiset{}
    else
      SiteStreams(x, deferred[0].objectType, deferred[0].source, deferred[0].path, deferred[0].selections)
      + DeferredDue(x, deferred[1..])
  }

  function StreamedDue(x: Exec, streamed: seq<StreamJob>): multiset<StreamJob>
    requires Finite(x) && Servable(streamed)
  {
    if streamed == [] then multiset{} else JobDue(x, streamed[0]) + StreamedDue(x, streamed[1..])
  }

  /** What the items still to be streamed will begin. */
  function JobDue(x: Exec, job: StreamJob): multiset<StreamJob>
    requires Finite(x) && job.nodes != []
  {
    ItemsStream(x, job.ofType, job.nodes, job.path, job.items, job.next)
  }

  lemma {:induction false} DeferredDueBoth(x: Exec, a: seq<DeferJob>, b: seq<DeferJob>)
    requires Finite(x)
    ensures DeferredDue(x, a + b) == DeferredDue(x, a) + DeferredDue(x, b)
    decreases |a|
  {
    if a == [] {
      assert a + b == b;
    } else {
      assert (a + b)[1..] == a[1..] + b;
      DeferredDueBoth(x, a[1..], b);
    }
  }

  lemma {:induction false} StreamedDueBoth(x: Exec, a: seq<StreamJob>, b: seq<StreamJob>)
    requires Finite(x) && Servable(a) && Servable(b)
    ensures Servable(a + b) && StreamedDue(x, a + b) == StreamedDue(x, a) + StreamedDue(x, b)
    decreases |a|
  {
    if a == [] {
      assert a + b == b;
    } else {
      assert (a + b)[1..] == a[1..] + b;
      StreamedDueBoth(x, a[1..], b);
    }
  }

  lemma {:induction false} SetsDue(x: Exec, objectType: string, source: PyValue, path: Path, sets: seq<seq<Selection>>)
    requires Finite(x)
    ensures DeferredDue(x, DeferJobs(objectType, source, path, sets)) == SitesStream(x, objectType, source, path, sets)
    decreases |sets|
  {
    if sets != [] {
      assert DeferJobs(objectType, source, path, sets)[1..] == DeferJobs(objectType, source, path, sets[1..]);
      SetsDue(x, objectType, source, path, sets[1..]);
    }
  }

  /** The jobs an execution step leaves, with all they will lead to. */
  function Left(x: Exec, out: Out): multiset<StreamJob>
    requires Finite(x) && Servable(out.streamed)
  {
    multiset(out.streamed) + Due(x, out.deferred, out.streamed)
  }

  lemma LeftBoth(x: Exec, h: Out, t: Out, out: Out)
    requires Finite(x) && Servable(h.streamed) && Servable(t.streamed)
    requires out.deferred == h.deferred + t.deferred && out.streamed == h.streamed + t.streamed
    ensures Servable(out.streamed) && Left(x, out) == Left(x, h) + Left(x, t)
  {
    DeferredDueBoth(x, h.deferred, t.deferred);
    StreamedDueBoth(x, h.streamed, t.streamed);
  }

  lemma LeftWithDeferred(x: Exec, objectType: string, value: PyValue, path: Path, sets: seq<seq<Selection>>, out: Out)
    requires Finite(x) && Servable(out.streamed)
    ensures Left(x, WithDeferred(objectType, value, path, sets, out))
            == Left(x, out) + SitesStream(x, objectType, value, path, sets)
  {
    DeferredDueBoth(x, DeferJobs(objectType, value, path, sets), out.deferred);
    SetsDue(x, objectType, value, path, sets);
  }

  lemma {:induction false} FieldLeaves(x: Exec, objectType: string, source: PyValue, nodes: seq<Selection>, path: Path)
    requires Finite(x) && nodes != []
    ensures var out := ExecuteField(x, objectType, source, nodes, path);
            Servable(out.streamed) && Left(x, out) == FieldStreams(x, objectType, source, nodes, path)
    decreases Size(nodes, x.weight), 2
  {
    var node := nodes[0];
    if node.Field? && node.name != "__typename" && node.name in FieldTypes(x.env, objectType) {
      var t := FieldTypes(x.env, objectType)[node.name];
      var resolved := x.world.resolve(objectType, node.name, Arguments.ArgumentsMap(node.arguments), source, path);
      if resolved.Returned? { ValueLeaves(x, t, nodes, path, resolved.value); }
    }
  }

  lemma {:induction false} FieldsLeave(x: Exec, objectType: string, source: PyValue, nodes: seq<Selection>,
                                       keys: seq<string>, path: Path, serial: bool)
    requires Finite(x) && KeysOf(keys, nodes)
    requires serial ==> ExecuteFields(x, objectType, source, nodes, keys, path, serial).ending.Data?
    ensures var out := ExecuteFields(x, objectType, source, nodes, keys, path, serial);
            Servable(out.streamed) && Left(x, out) == GroupsStream(x, objectType, source, nodes, keys, path)
    decreases Size(nodes, x.weight), 3, |keys|
  {
    if keys != [] {
      SizeUnder(nodes, keys[0], x.weight);
      var h := ExecuteField(x, objectType, source, Under(nodes, keys[0]), path + [Key(keys[0])]);
      var t := ExecuteFields(x, objectType, source, nodes, keys[1..], path, serial);
      FieldLeaves(x, objectType, source, Under(nodes, keys[0]), path + [Key(keys[0])]);
      FieldsLeave(x, objectType, source, nodes, keys[1..], path, serial);
      LeftBoth(x, h, t, Beside(keys[0], h, t));
    }
  }

  lemma {:induction false} ValueLeaves(x: Exec, t: TypeRef, nodes: seq<Selection>, path: Path, value: PyValue)
    requires Finite(x) && nodes != []
    ensures var out := CompleteValue(x, t, nodes, path, value);
            Servable(out.streamed) && Left(x, out) == ValueStreams(x, t, nodes, path, value)
    decreases Size(nodes, x.weight), 1, t, 1
  {
    match t
    case NonNull(u) =>
      ValueLeaves(x, u, nodes, path, value);
      NotNullLeaves(x, path, value, CompleteValue(x, u, nodes, path, value));
    case ListType(u) =>
      if value.PyList? {
        var now := if x.incremental then Initial(x, nodes[0], value.items) else |value.items|;
        ListIs(x, u, nodes, path, value.items, now);
        ListLeaves(x, u, nodes, path, value.items, now);
      } else {
        NothingLeft(x, CompleteValue(x, t, nodes, path, value));
      }
    case NamedType(name) =>
      if !value.PyNull? && !IsLeaf(x.env, name) && IsComposite(x.env, name) && Infers(ConcreteType(x, name, value)) {
        ObjectLeaves(x, name, ConcreteType(x, name, value).name.value, nodes, path, value);
      } else {
        NothingLeft(x, CompleteValue(x, t, nodes, path, value));
      }
  }

  lemma NothingLeft(x: Exec, out: Out)
    requires Finite(x) && NoJobs(out)
    ensures Servable(out.streamed) && Left(x, out) == multiset{}
  {
  }

  lemma NotNullLeaves(x: Exec, path: Path, value: PyValue, out: Out)
    requires Finite(x) && Servable(out.streamed)
    ensures var kept := NotNull(path, value, out); Servable(kept.streamed) && Left(x, kept) == Left(x, out)
  {
  }

  lemma {:induction false} ObjectLeaves(x: Exec, name: string, objectType: string, nodes: seq<Selection>, path: Path,
      value: PyValue)
    requires Finite(x) && nodes != [] && !value.PyNull? && !IsLeaf(x.env, name) && IsComposite(x.env, name)
    requires ConcreteType(x, name, value) == Inferred(Some(objectType))
    ensures var out := CompleteValue(x, NamedType(name), nodes, path, value);
            Servable(out.streamed) && Left(x, out) == ValueStreams(x, NamedType(name), nodes, path, value)
    decreases Size(nodes, x.weight), 0
  {
    var w := SubWalk(x, objectType, nodes);
    ObjectParts(x, name, objectType, nodes, path, value);
    SubWalkSize(x, objectType, nodes);
    FieldsLeave(x, objectType, value, w.nodes, Keys(w.nodes), path, false);
    LeftWithDeferred(x, objectType, value, path, w.deferred,
                     ExecuteFields(x, objectType, value, w.nodes, Keys(w.nodes), path, false));
  }

  lemma {:induction false} ListLeaves(x: Exec, u: TypeRef, nodes: seq<Selection>, path: Path, items: seq<PyValue>,
      now: nat)
    requires Finite(x) && nodes != [] && now <= |items|
    ensures var out := WithStream(u, nodes, path, items, now, CompleteItems(x, u, nodes, path, items[..now], 0));
            && Servable(out.streamed)
            && Left(x, out) == multiset(Remainder(u, nodes, path, items, now))
               + ItemsStream(x, u, nodes, path, items, 0)
    decreases Size(nodes, x.weight), 1, u, 3 + |items|
  {
    ItemsLeave(x, u, nodes, path, items[..now], 0);
    ListSums(x, u, nodes, path, items, now, CompleteItems(x, u, nodes, path, items[..now], 0));
  }

  lemma ListSums(x: Exec, u: TypeRef, nodes: seq<Selection>, path: Path, items: seq<PyValue>, now: nat, out: Out)
    requires Finite(x) && nodes != [] && now <= |items|
    requires Servable(out.streamed) && Left(x, out) == ItemsStream(x, u, nodes, path, items[..now], 0)
    ensures var all := WithStream(u, nodes, path, items, now, out);
            && Servable(all.streamed)
            && Left(x, all) == multiset(Remainder(u, nodes, path, items, now))
               + ItemsStream(x, u, nodes, path, items, 0)
  {
    RemainderDue(x, u, nodes, path, items, now);
    LeftAlso(x, Remainder(u, nodes, path, items, now), out);
  }

  lemma ListIs(x: Exec, u: TypeRef, nodes: seq<Selection>, path: Path, items: seq<PyValue>, now: nat)
    requires Finite(x) && nodes != [] && now == if x.incremental then Initial(x, nodes[0], items) else |items|
    ensures CompleteValue(x, ListType(u), nodes, path, PyList(items))
            == WithStream(u, nodes, path, items, now, CompleteItems(x, u, nodes, path, items[..now], 0))
    ensures ListStreams(x, u, nodes, path, items)
            == multiset(Remainder(u, nodes, path, items, now)) + ItemsStream(x, u, nodes, path, items, 0)
  {
  }

  /** The early items and the job for the rest lead to what all items lead to. */
  lemma RemainderDue(x: Exec, u: TypeRef, nodes: seq<Selection>, path: Path, items: seq<PyValue>, now: nat)
    requires Finite(x) && nodes != [] && now <= |items|
    ensures var more := Remainder(u, nodes, path, items, now);
            && Servable(more)
            && ItemsStream(x, u, nodes, path, items[..now], 0) + StreamedDue(x, more)
               == ItemsStream(x, u, nodes, path, items, 0)
  {
    ItemsSplit(x, u, nodes, path, items, 0, now);
    assert 0 + now == now;
    RestIsDue(x, u, nodes, path, items, now);
  }

  lemma RestIsDue(x: Exec, u: TypeRef, nodes: seq<Selection>, path: Path, items: seq<PyValue>, now: nat)
    requires Finite(x) && nodes != [] && now <= |items|
    ensures var more := Remainder(u, nodes, path, items, now);
            Servable(more) && StreamedDue(x, more) == ItemsStream(x, u, nodes, path, items[now..], now)
  {
    if now < |items| {
      var job := StreamJob(u, nodes, path, items[now..], now);
      assert Remainder(u, nodes, path, items, now) == [job] && [job][1..] == [];
      assert StreamedDue(x, [job]) == JobDue(x, job) + StreamedDue(x, []);
    } else {
      assert items[now..] == [];
    }
  }

  lemma LeftAlso(x: Exec, more: seq<StreamJob>, out: Out)
    requires Finite(x) && Servable(more) && Servable(out.streamed)
    ensures var all := out.(streamed := more + out.streamed);
            Servable(all.streamed) && Left(x, all) == multiset(more) + (Left(x, out) + StreamedDue(x, more))
  {
    StreamedDueBoth(x, more, out.streamed);
  }

  lemma {:induction false} ItemsLeave(x: Exec, t: TypeRef, nodes: seq<Selection>, path: Path, items: seq<PyValue>,
      from: nat)
    requires Finite(x) && nodes != []
    ensures var out := CompleteItems(x, t, nodes, path, items, from);
            Servable(out.streamed) && Left(x, out) == ItemsStream(x, t, nodes, path, items, from)
    decreases Size(nodes, x.weight), 1, t, 2 + |items|
  {
    if items != [] {
      var h := CompleteValue(x, t, nodes, path + [Index(from)], items[0]);
      var r := CompleteItems(x, t, nodes, path, items[1..], from + 1);
      ValueLeaves(x, t, nodes, path + [Index(from)], items[0]);
      ItemsLeave(x, t, nodes, path, items[1..], from + 1);
      LeftBoth(x, h, r, Ahead(h, r));
    }
  }

  /** Running a selection set leaves the jobs of its groups. */
  lemma SelectionLeaves(x: Exec, objectType: string, source: PyValue, ss: seq<Selection>, path: Path, serial: bool)
    requires Finite(x)
    requires serial ==> SelectionOut(x, objectType, source, ss, path, serial).ending.json.JObject?
    ensures var out := SelectionOut(x, objectType, source, ss, path, serial);
            Servable(out.streamed) && Left(x, out) == SiteStreams(x, objectType, source, path, ss)
  {
    var w := Walk(x.env, objectType, ss, {}, x.incremental);
    AllKeys(w.nodes);
    FieldsLeave(x, objectType, source, w.nodes, Keys(w.nodes), path, serial);
    LeftWithDeferred(x, objectType, source, path, w.deferred,
                     ExecuteFields(x, objectType, source, w.nodes, Keys(w.nodes), path, serial));
  }

  // ----- where the streamed lists stand ----------------------------------------------------------------

  /** The job holds what is left of a list after the initial count its `@stream` asks for. */
  predicate StartsAtCount(x: Exec, job: StreamJob) {
    && job.nodes != [] && job.nodes[0].Field? && job.items != []
    && var count := StreamCount(x, job.nodes[0].directives);
       count.Some? && job.next == (if count.value < 0 then 0 else count.value)
  }

  /** The job streams the end of the list that the resolver gave at the position, for some of the position's
      field nodes. */
  predicate StreamsEndOf(job: StreamJob, q: Position) {
    && Strip(q.t) == ListType(job.ofType) && q.path == job.path && (forall n <- job.nodes :: n in q.nodes)
    && q.raw.Returned? && q.raw.value.PyList? && |q.raw.value.items| == job.next + |job.items|
    && q.raw.value.items[job.next..] == job.items
  }

  predicate PlacedBelow(x: Exec, p: Position, rel: Path, job: StreamJob) {
    && StartsAtCount(x, job)
    && var q := PositionAt(OneShot(x), p, rel); q.Some? && StreamsEndOf(job, q.value)
  }

  /** The nodes come from the merged ones. */
  predicate Among(nodes: seq<Selection>, all: seq<Selection>) { forall n <- nodes :: n in all }

  lemma {:induction false} ValuePlaced(x: Exec, t: TypeRef, nodes: seq<Selection>, all: seq<Selection>, path: Path,
                                       value: PyValue, caught: bool, job: StreamJob) returns (rel: Path)
    requires Finite(x) && nodes != [] && Among(nodes, all) && Together(OneShot(x), t, all)
    requires job in ValueStreams(x, t, nodes, path, value)
    ensures PlacedBelow(x, Position(t, all, path, Returned(value), caught), rel, job)
    decreases Size(nodes, x.weight), 1, t, 1
  {
    match t
    case NonNull(u) =>
      rel := ValuePlaced(x, u, nodes, all, path, value, caught, job);
      Unwrapped(x, u, all, path, value, caught, rel, job);
    case ListType(u) => rel := ListPlaced(x, u, nodes, all, path, value.items, caught, job);
    case NamedType(name) =>
      var objectType := ConcreteType(x, name, value).name.value;
      rel := ObjectPlaced(x, name, objectType, nodes, all, path, value, caught, job);
  }

  lemma {:induction false} ListPlaced(x: Exec, u: TypeRef, nodes: seq<Selection>, all: seq<Selection>, path: Path,
                                      items: seq<PyValue>, caught: bool, job: StreamJob) returns (rel: Path)
    requires Finite(x) && nodes != [] && Among(nodes, all) && Together(OneShot(x), ListType(u), all)
    requires job in ListStreams(x, u, nodes, path, items)
    ensures PlacedBelow(x, Position(ListType(u), all, path, Returned(PyList(items)), caught), rel, job)
    decreases Size(nodes, x.weight), 1, u, 3
  {
    var now := if x.incremental then Initial(x, nodes[0], items) else |items|;
    if job in Remainder(u, nodes, path, items, now) {
      rel := [];
      AtList(x, u, nodes, all, path, items, caught, now);
    } else {
      assert job in ItemsStream(x, u, nodes, path, items, 0);
      var i, item := ItemOf(x, u, nodes, path, items, 0, job);
      var below := ValuePlaced(x, u, nodes, all, path + [Index(i)], item, false, job);
      rel := [Index(i)] + below;
      FromList(x, u, all, path, items, caught, i, below, job);
    }
  }

  lemma AtList(x: Exec, u: TypeRef, nodes: seq<Selection>, all: seq<Selection>, path: Path, items: seq<PyValue>,
      caught: bool, now: nat)
    requires nodes != [] && Among(nodes, all)
    requires now < |items| && now == if x.incremental then Initial(x, nodes[0], items) else |items|
    ensures PlacedBelow(x, Position(ListType(u), all, path, Returned(PyList(items)), caught), [],
              StreamJob(u, nodes, path, items[now..], now))
  {
  }

  lemma FromList(x: Exec, u: TypeRef, all: seq<Selection>, path: Path, items: seq<PyValue>, caught: bool,
                 i: nat, below: Path, job: StreamJob)
    requires i < |items| && PlacedBelow(x, Position(u, all, path + [Index(i)], Returned(items[i]), false), below, job)
    ensures PlacedBelow(x, Position(ListType(u), all, path, Returned(PyList(items)), caught), [Index(i)] + below, job)
  {
    var p := Position(ListType(u), all, path, Returned(PyList(items)), caught);
    assert Child(OneShot(x), p, Index(i)) == Some(Position(u, all, path + [Index(i)], Returned(items[i]), false));
    assert ([Index(i)] + below)[1..] == below;
  }

  lemma Unwrapped(x: Exec, u: TypeRef, all: seq<Selection>, path: Path, value: PyValue, caught: bool, rel: Path,
      job: StreamJob)
    requires PlacedBelow(x, Position(u, all, path, Returned(value), caught), rel, job)
    ensures PlacedBelow(x, Position(NonNull(u), all, path, Returned(value), caught), rel, job)
  {
    var p, q := Position(u, all, path, Returned(value), caught),
        Position(NonNull(u), all, path, Returned(value), caught);
    if rel != [] { assert Child(OneShot(x), p, rel[0]) == Child(OneShot(x), q, rel[0]); }
  }

  lemma {:induction false} ItemOf(x: Exec, t: TypeRef, nodes: seq<Selection>, path: Path, items: seq<PyValue>,
      from: nat, job: StreamJob)
    returns (i: nat, item: PyValue)
    requires Finite(x) && nodes != [] && job in ItemsStream(x, t, nodes, path, items, from)
    ensures from <= i < from + |items| && item == items[i - from]
    ensures job in ValueStreams(x, t, nodes, path + [Index(i)], item)
    decreases |items|
  {
    var rest := items[1..];
    if job in ItemsStream(x, t, nodes, path, rest, from + 1) {
      i, item := ItemOf(x, t, nodes, path, rest, from + 1, job);
      Later(items, i - from);
    } else {
      i, item := from, items[0];
    }
  }

  lemma Later<T>(items: seq<T>, k: nat)
    requires 0 < k < |items|
    ensures items[1..][k - 1] == items[k]
  {
  }

  lemma {:induction false} ObjectPlaced(x: Exec, name: string, objectType: string, nodes: seq<Selection>,
      all: seq<Selection>,
                                        path: Path, value: PyValue, caught: bool, job: StreamJob) returns (rel: Path)
    requires Finite(x) && nodes != [] && Among(nodes, all) && Together(OneShot(x), NamedType(name), all)
    requires !value.PyNull? && !IsLeaf(x.env, name) && IsComposite(x.env, name)
    requires ConcreteType(x, name, value) == Inferred(Some(objectType))
    requires job in ValueStreams(x, NamedType(name), nodes, path, value)
    ensures PlacedBelow(x, Position(NamedType(name), all, path, Returned(value), caught), rel, job)
    decreases Size(nodes, x.weight), 0
  {
    var y := OneShot(x);
    var w := SubWalk(x, objectType, nodes);
    var merged := SubWalk(y, objectType, all).nodes;
    SubWalkSize(x, objectType, nodes);
    AllKeys(w.nodes);
    MergedBelow(x, name, objectType, nodes, all);
    ObjectStreams(x, name, objectType, nodes, path, value);
    rel := SitesPlaced(x, objectType, value, w.nodes, w.deferred, merged, path, job);
    FromObject(x, name, objectType, all, path, value, caught, rel, job);
  }

  lemma ObjectStreams(x: Exec, name: string, objectType: string, nodes: seq<Selection>, path: Path, value: PyValue)
    requires Finite(x) && nodes != [] && !value.PyNull? && !IsLeaf(x.env, name) && IsComposite(x.env, name)
    requires ConcreteType(x, name, value) == Inferred(Some(objectType))
    ensures var w := SubWalk(x, objectType, nodes);
            && KeysOf(Keys(w.nodes), w.nodes)
            && ValueStreams(x, NamedType(name), nodes, path, value)
               == GroupsStream(x, objectType, value, w.nodes, Keys(w.nodes), path)
                   + SitesStream(x, objectType, value, path, w.deferred)
  {
    AllKeys(SubWalk(x, objectType, nodes).nodes);
  }

  lemma FromObject(x: Exec, name: string, objectType: string, all: seq<Selection>, path: Path, value: PyValue,
                   caught: bool, rel: Path, job: StreamJob)
    requires !value.PyNull? && !IsLeaf(x.env, name) && IsComposite(x.env, name)
    requires ConcreteType(x, name, value) == Inferred(Some(objectType))
    requires PlacedAmong(x, objectType, value, SubWalk(OneShot(x), objectType, all).nodes, path, rel, job)
    ensures PlacedBelow(x, Position(NamedType(name), all, path, Returned(value), caught), rel, job)
  {
    var p := Position(NamedType(name), all, path, Returned(value), caught);
    assert ConcreteType(OneShot(x), name, value) == Inferred(Some(objectType));
    assert Child(OneShot(x), p, rel[0]).Some?;
  }

  /** What the nodes collect and what they set aside is among what the merged nodes select. */
  lemma MergedBelow(x: Exec, name: string, objectType: string, nodes: seq<Selection>, all: seq<Selection>)
    requires Finite(x) && Among(nodes, all) && Together(OneShot(x), NamedType(name), all)
    requires IsComposite(x.env, name) && CanBe(x.env, name, objectType)
    ensures var w := SubWalk(x, objectType, nodes);
            var merged := SubWalk(OneShot(x), objectType, all).nodes;
            && Consistent(OneShot(x), objectType, merged) && Among(w.nodes, merged)
            && forall d <- w.deferred :: Among(Walk(x.env, objectType, d, {}, false).nodes, merged)
  {
    var y := OneShot(x);
    var w := SubWalk(x, objectType, nodes);
    var merged := SubWalk(y, objectType, all).nodes;
    SubWalkMember(y, objectType, nodes);
    SubWalkMember(y, objectType, all);
    forall m | m in w.nodes || exists d <- w.deferred :: m in Walk(x.env, objectType, d, {}, false).nodes
      ensures m in merged {
      SubWalkParts(x, objectType, nodes, m);
      var n :| n in nodes && m in NodeWalk(y, objectType, n).nodes;
      assert n in all;
    }
  }

  /** A job of collected or set-aside selections stands below a field of the merged ones. */
  ghost predicate PlacedAmong(x: Exec, objectType: string, source: PyValue, merged: seq<Selection>, path: Path,
      rel: Path, job: StreamJob)
  {
    && rel != [] && rel[0].Key?
    && var field := FieldPosition(OneShot(x), objectType, source, merged, path, rel[0].key);
       field.Some? && PlacedBelow(x, field.value, rel[1..], job)
  }

  lemma {:induction false} SitesPlaced(x: Exec, objectType: string, source: PyValue, nodes: seq<Selection>,
      sets: seq<seq<Selection>>,
                                       merged: seq<Selection>, path: Path, job: StreamJob) returns (rel: Path)
    requires Finite(x) && Consistent(OneShot(x), objectType, merged) && Among(nodes, merged)
             && KeysOf(Keys(nodes), nodes)
    requires forall d <- sets :: Among(Walk(x.env, objectType, d, {}, false).nodes, merged)
    requires job in GroupsStream(x, objectType, source, nodes, Keys(nodes), path)
             + SitesStream(x, objectType, source, path, sets)
    ensures PlacedAmong(x, objectType, source, merged, path, rel, job)
    decreases Size(nodes, x.weight) + SizeAll(sets, x.weight), 5
  {
    if job in GroupsStream(x, objectType, source, nodes, Keys(nodes), path) {
      rel := GroupsPlaced(x, objectType, source, nodes, Keys(nodes), merged, path, job);
    } else {
      var d := SiteOf(x, objectType, source, path, sets, job);
      SetsSmaller(sets, d, x.weight);
      rel := SitePlaced(x, objectType, source, d, merged, path, job);
    }
  }

  lemma {:induction false} SiteOf(x: Exec, objectType: string, source: PyValue, path: Path, sets: seq<seq<Selection>>,
      job: StreamJob)
    returns (d: seq<Selection>)
    requires Finite(x) && job in SitesStream(x, objectType, source, path, sets)
    ensures d in sets && job in SiteStreams(x, objectType, source, path, d)
    decreases |sets|
  {
    if job in SiteStreams(x, objectType, source, path, sets[0]) { d := sets[0]; }
    else { d := SiteOf(x, objectType, source, path, sets[1..], job); }
  }

  lemma {:induction false} SitePlaced(x: Exec, objectType: string, source: PyValue, ss: seq<Selection>,
      merged: seq<Selection>,
                                      path: Path, job: StreamJob) returns (rel: Path)
    requires Finite(x) && Consistent(OneShot(x), objectType, merged)
    requires Among(Walk(x.env, objectType, ss, {}, false).nodes, merged)
    requires job in SiteStreams(x, objectType, source, path, ss)
    ensures PlacedAmong(x, objectType, source, merged, path, rel, job)
    decreases Size(ss, x.weight), 6
  {
    var w := Walk(x.env, objectType, ss, {}, x.incremental);
    WalkSize(x, objectType, ss, {});
    AllKeys(w.nodes);
    WalkAmong(x, objectType, ss, merged);
    rel := SitesPlaced(x, objectType, source, w.nodes, w.deferred, merged, path, job);
  }

  lemma WalkAmong(x: Exec, objectType: string, ss: seq<Selection>, merged: seq<Selection>)
    requires Among(Walk(x.env, objectType, ss, {}, false).nodes, merged)
    ensures var w := Walk(x.env, objectType, ss, {}, x.incremental);
            Among(w.nodes, merged) && forall d <- w.deferred ::
                Among(Walk(x.env, objectType, d, {}, false).nodes, merged)
  {
    var w := Walk(x.env, objectType, ss, {}, x.incremental);
    if x.incremental {
      forall m | m in w.nodes || exists d <- w.deferred :: m in Walk(x.env, objectType, d, {}, false).nodes
        ensures m in merged {
        WalkSplits(x, objectType, ss, m);
      }
    } else {
      NothingSetAside(x.env, objectType, ss, {});
    }
  }

  lemma {:induction false} GroupsPlaced(x: Exec, objectType: string, source: PyValue, nodes: seq<Selection>,
      keys: seq<string>,
                                        merged: seq<Selection>, path: Path, job: StreamJob) returns (rel: Path)
    requires Finite(x) && Consistent(OneShot(x), objectType, merged) && Among(nodes, merged) && KeysOf(keys, nodes)
    requires job in GroupsStream(x, objectType, source, nodes, keys, path)
    ensures PlacedAmong(x, objectType, source, merged, path, rel, job)
    decreases Size(nodes, x.weight), 3, |keys|
  {
    SizeUnder(nodes, keys[0], x.weight);
    if job in FieldStreams(x, objectType, source, Under(nodes, keys[0]), path + [Key(keys[0])]) {
      rel := FieldPlaced(x, objectType, source, nodes, keys[0], merged, path, job);
    } else {
      rel := GroupsPlaced(x, objectType, source, nodes, keys[1..], merged, path, job);
    }
  }

  /** One group of some nodes, below the merged group of the same key, where the same field has been resolved. */
  lemma {:induction false} FieldPlaced(x: Exec, objectType: string, source: PyValue, nodes: seq<Selection>, key: string,
                                       merged: seq<Selection>, path: Path, job: StreamJob) returns (rel: Path)
    requires Finite(x) && Consistent(OneShot(x), objectType, merged) && Among(nodes, merged) && Under(nodes, key) != []
    requires job in FieldStreams(x, objectType, source, Under(nodes, key), path + [Key(key)])
    ensures PlacedAmong(x, objectType, source, merged, path, rel, job)
    decreases Size(Under(nodes, key), x.weight), 2
  {
    var y := OneShot(x);
    var here := path + [Key(key)];
    var some, all := Under(nodes, key), Under(merged, key);
    UnderExact(nodes, key);
    UnderExact(merged, key);
    assert some[0] in some && some[0] in merged;
    assert Among(some, all) && all != [] && all[0] in all;
    GroupTogether(y, objectType, merged, key);
    assert Alike(all[0], some[0]);
    var field := FieldPosition(y, objectType, source, merged, path, key).value;
    var below := ValuePlaced(x, field.t, some, all, here, field.raw.value, true, job);
    rel := [Key(key)] + below;
  }

  // ----- their data in the one-shot response -------------------------------------------------------------

  predicate Quiet(out: Out, json: Json) { out.ending == Data(json) && out.errors == [] }

  lemma NoErrors(some: seq<Error>, all: seq<Error>)
    requires forall e <- some :: e in all
    ensures all == [] ==> some == []
  {
    if some != [] { assert some[0] in all; }
  }

  /** Without errors there is data at every position that got a value. */
  lemma {:induction false} DataThere(y: Exec, p: Position, path: Path)
    requires Ready(y) && Sound(y) && Proper(y, p) && Clean(Outcome(y, p)) && PositionAt(y, p, path).Some?
    ensures var q := PositionAt(y, p, path).value;
            var there := DataAt(Outcome(y, p).ending.json, path);
            Proper(y, q) && there.Some? && Quiet(Outcome(y, q), there.value)
    decreases |path|
  {
    if path != [] {
      NullLeavesError(y, p.t, p.nodes, p.path, p.raw.value);
      ChildThere(y, p, path[0]);
      ChildDataIsLocal(y, p, path[0]);
      ChildErrors(y, p, path[0]);
      NoErrors(Outcome(y, Child(y, p, path[0]).value).errors, Outcome(y, p).errors);
      ChildProper(y, p, path[0]);
      DataThere(y, Child(y, p, path[0]).value, path[1..]);
    }
  }

  lemma ListThere(y: Exec, q: Position, u: TypeRef, items: seq<PyValue>, json: Json)
    requires Ready(y) && Sound(y) && Proper(y, q) && Quiet(Outcome(y, q), json)
    requires Strip(q.t) == ListType(u) && q.raw == Returned(PyList(items))
    ensures json.JList? && |json.items| == |items|
  {
    NullLeavesError(y, q.t, q.nodes, q.path, q.raw.value);
    if q.t.NonNull? { Stripped(y, q.t, q.nodes, q.path, q.raw.value); }
    assert items[..|items|] == items;
  }

  /** The job streams, from its initial count, the end of the list that stands at its path in the one-shot
      response; its nodes are some of the field nodes merged there. */
  predicate StreamsListOf(x: Exec, rootType: string, rootValue: PyValue, ss: seq<Selection>, mutation: bool,
      job: StreamJob)
    requires Finite(x)
  {
    && StartsAtCount(x, job)
    && var y := OneShot(x);
       var q := OperationPosition(y, rootType, rootValue, ss, job.path);
       && q.Some? && StreamsEndOf(job, q.value)
       && DataAt(Response(y, rootType, rootValue, ss, mutation), job.path).Some?
       && var list := DataAt(Response(y, rootType, rootValue, ss, mutation), job.path).value;
          list.JList? && |list.items| == job.next + |job.items|
  }

  lemma StreamedListStands(x: Exec, rootType: string, rootValue: PyValue, ss: seq<Selection>, mutation: bool,
      job: StreamJob)
    requires Finite(x) && ErrorFree(OneShot(x), rootType, rootValue, ss, mutation)
    requires job in SiteStreams(x, rootType, rootValue, [], ss)
    ensures StreamsListOf(x, rootType, rootValue, ss, mutation, job)
  {
    var y := OneShot(x);
    var nodes := Walk(y.env, rootType, ss, {}, false).nodes;
    AllKeys(nodes);
    var rel := SitePlaced(x, rootType, rootValue, ss, nodes, [], job);
    var key, below := rel[0].key, rel[1..];
    var field := FieldPosition(y, rootType, rootValue, nodes, [], key).value;
    var q := PositionAt(y, field, below).value;
    PathFrom(y, field, below);
    assert rel == [] + [Key(key)] + below;
    assert q.path == rel;
    RootFieldClean(y, rootType, rootValue, ss, mutation, key);
    DataThere(y, field, below);
    ListThere(y, q, job.ofType, q.raw.value.items, DataAt(Outcome(y, field).ending.json, below).value);
  }

  lemma RootFieldClean(y: Exec, rootType: string, rootValue: PyValue, ss: seq<Selection>, mutation: bool, key: string)
    requires Ready(y) && ErrorFree(y, rootType, rootValue, ss, mutation)
    requires FieldPosition(y, rootType, rootValue, Walk(y.env, rootType, ss, {}, false).nodes, [], key).Some?
    ensures var field := FieldPosition(y, rootType, rootValue, Walk(y.env, rootType, ss, {}, false).nodes, [],
              key).value;
            && Proper(y, field) && Clean(Outcome(y, field))
            && StepInto(Response(y, rootType, rootValue, ss, mutation), Key(key)) == Some(Outcome(y, field).ending.json)
  {
    var nodes := Walk(y.env, rootType, ss, {}, false).nodes;
    AllKeys(nodes);
    FieldsLeaveError(y, rootType, rootValue, nodes, Keys(nodes), [], mutation);
    ObjectDataIsLocal(y, rootType, rootValue, nodes, [], mutation, key);
    ObjectFieldErrors(y, rootType, rootValue, nodes, [], mutation, key);
    FieldIsPosition(y, rootType, rootValue, nodes, [], key);
    NoErrors(FieldOut(y, rootType, rootValue, nodes, [], key).errors,
             ExecuteFields(y, rootType, rootValue, nodes, Keys(nodes), [], mutation).errors);
  }
}
