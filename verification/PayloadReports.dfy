/** Errors and nulls of incremental delivery: every payload, the first one, a deferred fragment's or a
    streamed item's, records exactly what its own positions report, and explains its own nulls. */
module PayloadReports {
  import opened Ast
  import opened CollectFields
  import opened Executor
  import opened NullPropagation
  import opened Reports
  import opened Delivery

  // ----- a deferred fragment's payload -----------------------------------------------------------

  /** The field nodes a deferred job executes now. */
  function DeferredNodes(x: Exec, job: DeferJob): seq<Selection> {
    Walk(x.env, job.objectType, job.selections, {}, x.incremental).nodes
  }

  /** A deferred payload has exactly the errors that positions below the job's object report. */
  lemma DeferredErrorsExactly(x: Exec, job: DeferJob, e: Error)
    requires Finite(x)
    ensures e in ResolveDeferred(x, job).errors
            <==> exists rel: Path ::
                   ReportedIn(x, job.objectType, job.source, DeferredNodes(x, job), job.path, false, rel, e)
  {
    AllKeys(DeferredNodes(x, job));
    ObjectErrorsExactly(x, job.objectType, job.source, DeferredNodes(x, job), job.path, false, e);
  }

  /** When raised errors carry no path, they stand at the paths of the positions that report them, one at each,
      and following an error's path through the payload's data meets a null at or before its end. */
  lemma DeferredErrorsExplained(x: Exec, job: DeferJob)
    requires Finite(x) && Pathless(x.world)
    ensures var out := ResolveDeferred(x, job);
            && out.ending.Data? && PathsOnce(out.errors)
            && forall e <- out.errors ::
                 && job.path <= e.path && MeetsNull(out.ending.json, e.path[|job.path|..])
                 && ReportedIn(x, job.objectType, job.source, DeferredNodes(x, job), job.path, false,
                               e.path[|job.path|..], e)
  {
    var nodes := DeferredNodes(x, job);
    AllKeys(nodes);
    ObjectOnce(x, job.objectType, job.source, nodes, job.path, false);
    forall e <- ResolveDeferred(x, job).errors
      ensures job.path <= e.path && MeetsNull(ResolveDeferred(x, job).ending.json, e.path[|job.path|..])
      ensures ReportedIn(x, job.objectType, job.source, nodes, job.path, false, e.path[|job.path|..], e)
    {
      ObjectErrorsHere(x, job.objectType, job.source, nodes, job.path, false, e);
      ObjectErrorMeetsNull(x, job.objectType, job.source, nodes, job.path, false, e);
    }
  }

  /** The null at `rel` was returned by a resolver where the type allows it, or stands for an unknown field, or
      has an error of the same payload at or beneath it. */
  predicate DeferredNullFits(x: Exec, job: DeferJob, errors: seq<Error>, rel: Path) {
    var nodes := DeferredNodes(x, job);
    var p := PositionIn(x, job.objectType, job.source, nodes, job.path, rel);
    || (p.Some? && ReturnedNull(p.value))
    || ErrorBeneath(errors, job.path + rel)
    || UnknownIn(x, job.objectType, job.source, nodes, job.path, rel)
  }

  /** Every null in a deferred payload, its data included, is explained there. */
  lemma DeferredNullsExplained(x: Exec, job: DeferJob, rel: Path)
    requires Sound(x)
    requires ResolveDeferred(x, job).ending.Data?
             && DataAt(ResolveDeferred(x, job).ending.json, rel) == Some(JNull)
    ensures DeferredNullFits(x, job, ResolveDeferred(x, job).errors, rel)
  {
    AllKeys(DeferredNodes(x, job));
    ObjectNullExplained(x, job.objectType, job.source, DeferredNodes(x, job), job.path, false, rel);
  }

  /** A deferred payload's data is null exactly when a bubble chain starts at one of its fields. */
  lemma DeferredNullExactly(x: Exec, job: DeferJob)
    requires Finite(x)
    ensures ResolveDeferred(x, job).ending == Data(JNull)
            <==> SomeFieldChain(x, job.objectType, job.source, DeferredNodes(x, job), job.path)
  {
    AllKeys(DeferredNodes(x, job));
    FieldsBubbleExactly(x, job.objectType, job.source, DeferredNodes(x, job), job.path, false);
  }

  /** Whatever else goes wrong, data in a deferred payload is what completing the position there gives. */
  lemma DeferredIsLocal(x: Exec, job: DeferJob, rel: Path)
    requires Finite(x) && ResolveDeferred(x, job).ending.Data?
    requires PositionIn(x, job.objectType, job.source, DeferredNodes(x, job), job.path, rel).Some?
    requires DataAt(ResolveDeferred(x, job).ending.json, rel).Some?
    ensures var p := PositionIn(x, job.objectType, job.source, DeferredNodes(x, job), job.path, rel).value;
            p.nodes != [] && Outcome(x, p).ending == Data(DataAt(ResolveDeferred(x, job).ending.json, rel).value)
  {
    var nodes := DeferredNodes(x, job);
    AllKeys(nodes);
    ObjectDataIsLocal(x, job.objectType, job.source, nodes, job.path, false, rel[0].key);
    FieldIsPosition(x, job.objectType, job.source, nodes, job.path, rel[0].key);
    DataIsLocal(x, FieldPosition(x, job.objectType, job.source, nodes, job.path, rel[0].key).value, rel[1..]);
  }

  // ----- a streamed item's payload ----------------------------------------------------------------

  /** The position of the job's head item. */
  function ItemPosition(job: StreamJob): Position
    requires job.items != []
  {
    Position(job.ofType, job.nodes, ItemPath(job), Returned(job.items[0]), false)
  }

  /** A streamed item's payload has exactly the errors that the item or a position below it reports. */
  lemma ItemErrorsExactly(x: Exec, job: StreamJob, e: Error)
    requires Finite(x) && job.nodes != [] && job.items != []
    ensures e in ResolveItem(x, job).errors <==> SomeReported(x, ItemPosition(job), e)
  {
    ErrorsExactly(x, ItemPosition(job), e);
  }

  lemma ItemErrorsExplained(x: Exec, job: StreamJob)
    requires Finite(x) && Pathless(x.world) && job.nodes != [] && job.items != []
    ensures var out := ResolveItem(x, job);
            && PathsOnce(out.errors)
            && forall e <- out.errors ::
                 && ItemPath(job) <= e.path && Reported(x, ItemPosition(job), e.path[|ItemPath(job)|..], e)
                 && (out.ending.Data? ==> MeetsNull(out.ending.json, e.path[|ItemPath(job)|..]))
  {
    var p := ItemPosition(job);
    PositionOnce(x, p);
    forall e <- ResolveItem(x, job).errors
      ensures ItemPath(job) <= e.path && Reported(x, p, e.path[|ItemPath(job)|..], e)
      ensures ResolveItem(x, job).ending.Data? ==>
                MeetsNull(ResolveItem(x, job).ending.json, e.path[|ItemPath(job)|..])
    {
      ErrorsBelow(x, p, e);
      if Outcome(x, p).ending.Data? { ReportMeetsNull(x, p, e.path[|ItemPath(job)|..]); }
    }
  }

  /** A streamed item is null exactly when completing it gives null or bubbles. */
  lemma ItemNullExactly(x: Exec, job: StreamJob)
    requires Finite(x) && job.nodes != [] && job.items != [] && Settled(x, ItemPosition(job))
    ensures var p := ItemPosition(job);
            ResolveItem(x, job).ending == Data(JNull)
            <==> BubbleChain(x, p)
                 || (!p.t.NonNull?
                     && (LocalNull(x, p) || (p.t.NamedType? && exists step, path :: ChainBelow(x, p, step, path))))
  {
    NullExactly(x, ItemPosition(job));
    BubblesExactly(x, ItemPosition(job));
  }

  /** Data in a streamed item's payload is what completing the position there gives. */
  lemma ItemIsLocal(x: Exec, job: StreamJob, rel: Path)
    requires Finite(x) && job.nodes != [] && job.items != [] && ResolveItem(x, job).ending.Data?
    requires PositionAt(x, ItemPosition(job), rel).Some? && DataAt(ResolveItem(x, job).ending.json, rel).Some?
    ensures var p := PositionAt(x, ItemPosition(job), rel).value;
            var json := DataAt(ResolveItem(x, job).ending.json, rel).value;
            p.nodes != [] && (Outcome(x, p).ending == Data(json) || (rel == [] && json.JNull?))
  {
    var p := ItemPosition(job);
    if Outcome(x, p).ending.Data? {
      DataIsLocal(x, p, rel);
    } else {
      LeafEnds(JNull, rel);
    }
  }

  predicate ItemNullFits(x: Exec, job: StreamJob, errors: seq<Error>, rel: Path)
    requires job.items != []
  {
    var p := PositionAt(x, ItemPosition(job), rel);
    || (p.Some? && ReturnedNull(p.value))
    || ErrorBeneath(errors, ItemPath(job) + rel)
    || UnknownAt(x, ItemPosition(job), rel)
  }

  /** Every null in a streamed item's payload, the item included, is explained there. */
  lemma ItemNullsExplained(x: Exec, job: StreamJob, rel: Path)
    requires Sound(x) && job.nodes != [] && job.items != [] && IsOutput(x.env, job.ofType)
    requires ResolveItem(x, job).ending.Data? && DataAt(ResolveItem(x, job).ending.json, rel) == Some(JNull)
    ensures ItemNullFits(x, job, ResolveItem(x, job).errors, rel)
  {
    var p := ItemPosition(job);
    if Outcome(x, p).ending.Bubble? {
      NullLeavesError(x, p.t, p.nodes, p.path, p.raw.value);
      var e := Outcome(x, p).errors[0];
      assert e in Outcome(x, p).errors;
      ErrorsBelow(x, p, e);
      LeafEnds(JNull, rel);
      assert ItemPath(job) + rel == ItemPath(job);
    } else {
      NullIsTyped(x, p, rel);
      if PositionAt(x, p, rel).Some? {
        NullExplainedBelow(x, p, rel);
        PathFrom(x, p, rel);
      }
    }
  }

  // ----- jobs stream lists of output types ----------------------------------------------------------

  predicate OutputJobs(env: Env, streamed: seq<StreamJob>) { forall j <- streamed :: IsOutput(env, j.ofType) }

  lemma {:induction false} FieldJobsOutput(x: Exec, objectType: string, source: PyValue, nodes: seq<Selection>,
      path: Path)
    requires Finite(x) && OutputFields(x.env) && nodes != []
    ensures OutputJobs(x.env, ExecuteField(x, objectType, source, nodes, path).streamed)
    decreases Size(nodes, x.weight), 1
  {
    var node := nodes[0];
    if node.Field? && node.name != "__typename" && node.name in FieldTypes(x.env, objectType) {
      match x.world.resolve(objectType, node.name, Arguments.ArgumentsMap(node.arguments), source, path)
      case Raised(_) =>
      case Returned(value) => ValueJobsOutput(x, FieldTypes(x.env, objectType)[node.name], nodes, path, value);
    }
  }

  lemma {:induction false} FieldsJobsOutput(x: Exec, objectType: string, source: PyValue, nodes: seq<Selection>,
      keys: seq<string>, path: Path, serial: bool)
    requires Finite(x) && OutputFields(x.env) && KeysOf(keys, nodes)
    ensures OutputJobs(x.env, ExecuteFields(x, objectType, source, nodes, keys, path, serial).streamed)
    decreases Size(nodes, x.weight), 2, |keys|
  {
    if keys != [] {
      SizeUnder(nodes, keys[0], x.weight);
      FieldJobsOutput(x, objectType, source, Under(nodes, keys[0]), path + [Key(keys[0])]);
      FieldsJobsOutput(x, objectType, source, nodes, keys[1..], path, serial);
    }
  }

  lemma {:induction false} ValueJobsOutput(x: Exec, t: TypeRef, nodes: seq<Selection>, path: Path, value: PyValue)
    requires Finite(x) && OutputFields(x.env) && nodes != [] && IsOutput(x.env, t)
    ensures OutputJobs(x.env, CompleteValue(x, t, nodes, path, value).streamed)
    decreases Size(nodes, x.weight), 0, t, 0
  {
    match t
    case NonNull(u) => ValueJobsOutput(x, u, nodes, path, value);
    case ListType(u) =>
      if value.PyList? {
        var now := if x.incremental then Initial(x, nodes[0], value.items) else |value.items|;
        ItemsJobsOutput(x, u, nodes, path, value.items[..now], 0);
      }
    case NamedType(name) =>
      if !value.PyNull? && !IsLeaf(x.env, name) && IsComposite(x.env, name) && Infers(ConcreteType(x, name, value)) {
        var objectType := ConcreteType(x, name, value).name.value;
        var sub := SubWalk(x, objectType, nodes);
        SubWalkSize(x, objectType, nodes);
        AllKeys(sub.nodes);
        FieldsJobsOutput(x, objectType, value, sub.nodes, Keys(sub.nodes), path, false);
      }
  }

  lemma {:induction false} ItemsJobsOutput(x: Exec, t: TypeRef, nodes: seq<Selection>, path: Path, items: seq<PyValue>,
      from: nat)
    requires Finite(x) && OutputFields(x.env) && nodes != [] && IsOutput(x.env, t)
    ensures OutputJobs(x.env, CompleteItems(x, t, nodes, path, items, from).streamed)
    decreases Size(nodes, x.weight), 0, t, 1 + |items|
  {
    if items != [] {
      ValueJobsOutput(x, t, nodes, path + [Index(from)], items[0]);
      ItemsJobsOutput(x, t, nodes, path, items[1..], from + 1);
    }
  }

  // ----- every payload of a run -----------------------------------------------------------------------

  /** Errors stand at distinct paths below the payload's own, and following each meets a null. */
  predicate ErrorsFit(p: Payload) {
    PathsOnce(p.errors) && forall e <- p.errors :: p.path <= e.path && MeetsNull(p.json, e.path[|p.path|..])
  }

  /** The payload is the job's, and its errors and nulls explain each other. */
  ghost predicate DeferredExplained(x: Exec, job: DeferJob, p: Payload)
    requires Finite(x)
  {
    && p.path == job.path && ResolveDeferred(x, job).ending == Data(p.json)
       && p.errors == ResolveDeferred(x, job).errors
    && ErrorsFit(p) && forall rel | DataAt(p.json, rel) == Some(JNull) :: DeferredNullFits(x, job, p.errors, rel)
  }

  ghost predicate ItemExplained(x: Exec, job: StreamJob, p: Payload)
    requires Finite(x)
  {
    && job.nodes != [] && job.items != [] && p.path == ItemPath(job)
    && ResolveItem(x, job).ending == Data(p.json) && p.errors == ResolveItem(x, job).errors
    && ErrorsFit(p) && forall rel | DataAt(p.json, rel) == Some(JNull) :: ItemNullFits(x, job, p.errors, rel)
  }

  ghost predicate Explained(x: Exec, p: Payload)
    requires Finite(x)
  {
    (exists job :: DeferredExplained(x, job, p)) || (exists job :: ItemExplained(x, job, p))
  }

  lemma DeferredIsExplained(x: Exec, job: DeferJob, p: Payload)
    requires Sound(x) && p.path == job.path && ResolveDeferred(x, job).ending == Data(p.json)
    requires p.errors == ResolveDeferred(x, job).errors
    ensures Explained(x, p)
  {
    DeferredErrorsExplained(x, job);
    forall rel | DataAt(p.json, rel) == Some(JNull) ensures DeferredNullFits(x, job, p.errors, rel) {
      DeferredNullsExplained(x, job, rel);
    }
    assert DeferredExplained(x, job, p);
  }

  lemma ItemIsExplained(x: Exec, job: StreamJob, p: Payload)
    requires Sound(x) && job.nodes != [] && job.items != [] && IsOutput(x.env, job.ofType)
    requires p.path == ItemPath(job) && ResolveItem(x, job).ending == Data(p.json)
    requires p.errors == ResolveItem(x, job).errors
    ensures Explained(x, p)
  {
    ItemErrorsExplained(x, job);
    forall rel | DataAt(p.json, rel) == Some(JNull) ensures ItemNullFits(x, job, p.errors, rel) {
      ItemNullsExplained(x, job, rel);
    }
    assert ItemExplained(x, job, p);
  }

  lemma {:induction false} PayloadsExplained(x: Exec, deferred: seq<DeferJob>, streamed: seq<StreamJob>)
    requires Sound(x) && Servable(streamed) && OutputJobs(x.env, streamed)
    ensures forall p <- Payloads(x, deferred, streamed) :: Explained(x, p)
    decreases Pending(x, deferred, streamed)
  {
    if deferred != [] {
      var job := deferred[0];
      DeferredStep(x, deferred, streamed);
      AllKeys(DeferredNodes(x, job));
      FieldsJobsOutput(x, job.objectType, job.source, DeferredNodes(x, job), Keys(DeferredNodes(x, job)), job.path,
                       false);
      var out := ResolveDeferred(x, job);
      DeferredIsExplained(x, job, Payloads(x, deferred, streamed)[0]);
      PayloadsExplained(x, deferred[1..] + out.deferred, streamed + out.streamed);
    } else if streamed != [] {
      var job := streamed[0];
      ItemStep(x, streamed);
      ValueJobsOutput(x, job.ofType, job.nodes, ItemPath(job), job.items[0]);
      var out := ResolveItem(x, job);
      if !out.ending.Crash? {
        ItemIsExplained(x, job, Payloads(x, deferred, streamed)[0]);
        PayloadsExplained(x, out.deferred, Rest(job) + streamed[1..] + out.streamed);
      }
    }
  }

  /** The first payload as that of a job that executes the whole selection set. */
  function WholeJob(rootType: string, rootValue: PyValue, ss: seq<Selection>): DeferJob {
    DeferJob(rootType, rootValue, [], ss)
  }

  /** In every run, whatever resolvers and serializers do, every payload's errors and nulls explain each other. */
  lemma EveryPayloadExplained(x: Exec, rootType: string, rootValue: PyValue, ss: seq<Selection>, mutation: bool)
    requires Sound(x)
    ensures var run := RunIncremental(x, rootType, rootValue, ss, mutation);
            && run != [] && ErrorsFit(run[0])
            && (forall rel | DataAt(run[0].json, rel) == Some(JNull) ::
                  DeferredNullFits(x, WholeJob(rootType, rootValue, ss), run[0].errors, rel))
            && forall p <- run[1..] :: Explained(x, p)
  {
    var out := ExecuteOperation(x, rootType, rootValue, ss, mutation);
    var nodes := Walk(x.env, rootType, ss, {}, x.incremental).nodes;
    var run := RunIncremental(x, rootType, rootValue, ss, mutation);
    AllKeys(nodes);
    OperationServable(x, rootType, rootValue, ss, mutation);
    FieldsJobsOutput(x, rootType, rootValue, nodes, Keys(nodes), [], mutation);
    PayloadsExplained(x, out.deferred, out.streamed);
    RecordedAtPosition(x, rootType, rootValue, ss, mutation);
    forall e <- run[0].errors ensures run[0].path <= e.path && MeetsNull(run[0].json, e.path[|run[0].path|..]) {
      ErrorsExplained(x, rootType, rootValue, ss, mutation, e);
      assert e.path[0..] == e.path;
    }
    forall rel | DataAt(run[0].json, rel) == Some(JNull)
      ensures DeferredNullFits(x, WholeJob(rootType, rootValue, ss), run[0].errors, rel)
    {
      NullsExplained(x, rootType, rootValue, ss, mutation, rel);
      assert [] + rel == rel;
    }
  }
}
