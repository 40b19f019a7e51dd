/** Which deferred fragments are queued: exactly those that the objects executed set aside, whatever fails
    beside or above them. */
module Queued {
  import opened Ast
  import opened CollectFields
  import opened Executor
  import opened NullPropagation
  import opened Reports
  import opened Delivery
  import opened PayloadReports
  import opened Selected

  // ----- what one object sets aside -------------------------------------------------------------

  /** Some of the nodes lead to a deferred fragment that holds the job's selections. */
  ghost predicate SetsAsideBelow(x: Exec, objectType: string, nodes: seq<Selection>, body: seq<Selection>) {
    exists m <- nodes :: m.Field? && m.selectionSet.SelectionSet?
      && Defers(x.env, objectType, m.selectionSet.selections, body, x.incremental)
  }

  lemma {:induction false} SetAsideBelow(x: Exec, objectType: string, nodes: seq<Selection>, body: seq<Selection>)
    ensures body in SubWalk(x, objectType, nodes).deferred <==> SetsAsideBelow(x, objectType, nodes, body)
  {
    if nodes != [] {
      var m := nodes[0];
      SetAsideBelow(x, objectType, nodes[1..], body);
      if m.Field? && m.selectionSet.SelectionSet? {
        SetAsideExactly(x.env, objectType, m.selectionSet.selections, body, x.incremental);
      }
    }
  }

  /** The value is completed as an object of type `objectType`. */
  predicate IsObject(x: Exec, p: Position, objectType: string) {
    && p.raw.Returned? && !p.raw.value.PyNull? && Strip(p.t).NamedType? && !IsLeaf(x.env, Strip(p.t).name)
    && IsComposite(x.env, Strip(p.t).name) && ConcreteType(x, Strip(p.t).name, p.raw.value)
       == Inferred(Some(objectType))
  }

  /** The job is for the object at the position, and holds a fragment set aside there. */
  ghost predicate QueuedHere(x: Exec, p: Position, job: DeferJob) {
    && IsObject(x, p, job.objectType) && job.source == p.raw.value && job.path == p.path
    && SetsAsideBelow(x, job.objectType, p.nodes, job.selections)
  }

  lemma JobsOfSets(objectType: string, source: PyValue, path: Path, sets: seq<seq<Selection>>, job: DeferJob)
    ensures job in DeferJobs(objectType, source, path, sets)
            <==> job.objectType == objectType && job.source == source && job.path == path && job.selections in sets
  {
    if job.selections in sets {
      var i :| 0 <= i < |sets| && sets[i] == job.selections;
      assert DeferJobs(objectType, source, path, sets)[i] == DeferJob(objectType, source, path, sets[i]);
    }
  }

  // ----- one level ----------------------------------------------------------------------------------

  predicate JobOfChild(x: Exec, p: Position, step: Step, job: DeferJob)
    requires Finite(x)
  {
    && Child(x, p, step).Some? && Child(x, p, step).value.nodes != []
    && job in Outcome(x, Child(x, p, step).value).deferred
  }

  ghost predicate JobOfSomeChild(x: Exec, p: Position, job: DeferJob)
    requires Finite(x)
  {
    exists step :: JobOfChild(x, p, step, job)
  }

  predicate ItemJob(outs: seq<Out>, i: nat, job: DeferJob) { i < |outs| && job in outs[i].deferred }

  lemma {:induction false} JoinedItemJobs(outs: seq<Out>, job: DeferJob)
    ensures job in JoinItems(outs).deferred <==> exists i: nat :: ItemJob(outs, i, job)
  {
    if outs != [] {
      JoinedItemJobs(outs[1..], job);
      if i: nat :| ItemJob(outs[1..], i, job) { assert ItemJob(outs, i + 1, job); }
      if job in outs[0].deferred { assert ItemJob(outs, 0, job); }
      if i: nat :| ItemJob(outs, i, job) && i > 0 { assert ItemJob(outs[1..], i - 1, job); }
    }
  }

  predicate FieldJob(outs: seq<Out>, serial: bool, i: nat, job: DeferJob) {
    GetsTo(outs, serial, i) && job in outs[i].deferred
  }

  lemma {:induction false} JoinedFieldJobs(keys: seq<string>, outs: seq<Out>, serial: bool, job: DeferJob)
    requires |keys| == |outs| && forall o <- outs :: !o.ending.Crash?
    ensures job in JoinFields(keys, outs, serial).deferred <==> exists i: nat :: FieldJob(outs, serial, i, job)
    decreases |keys|
  {
    if keys != [] {
      JoinedFieldJobs(keys[1..], outs[1..], serial, job);
      if job in outs[0].deferred { assert FieldJob(outs, serial, 0, job); }
      if i: nat :| FieldJob(outs[1..], serial, i, job) {
        if !(serial && outs[0].ending.Bubble?) {
          GetsToLater(outs, serial, i);
          assert FieldJob(outs, serial, i + 1, job);
        }
      }
      if i: nat :| FieldJob(outs, serial, i, job) && i > 0 {
        GetsToLater(outs, serial, i - 1);
        assert FieldJob(outs[1..], serial, i - 1, job);
      }
    }
  }

  lemma GetsToLater(outs: seq<Out>, serial: bool, i: nat)
    requires outs != []
    ensures GetsTo(outs, serial, i + 1) <==> GetsTo(outs[1..], serial, i) && (serial ==> !outs[0].ending.Bubble?)
  {
    assert forall j | 0 <= j < |outs| - 1 :: outs[1..][j] == outs[j + 1];
    if GetsTo(outs[1..], serial, i) && serial && !outs[0].ending.Bubble? {
      forall j | 0 <= j < i + 1 ensures !outs[j].ending.Bubble? {
        if j > 0 { assert outs[1..][j - 1] == outs[j]; }
      }
    }
  }

  /** The field `key` is executed and leaves the job. */
  predicate JobOfField(x: Exec, objectType: string, source: PyValue, nodes: seq<Selection>, path: Path, serial: bool,
      key: string, job: DeferJob)
    requires Finite(x)
  {
    var field := FieldPosition(x, objectType, source, nodes, path, key);
    && field.Some? && Starts(x, objectType, source, nodes, path, serial, key)
    && job in Outcome(x, field.value).deferred
  }

  lemma UntypedLeavesNone(x: Exec, objectType: string, source: PyValue, nodes: seq<Selection>, path: Path, key: string)
    requires Finite(x) && Under(nodes, key) != []
    ensures FieldPosition(x, objectType, source, nodes, path, key).None? ==>
              FieldOut(x, objectType, source, nodes, path, key).deferred == []
  {
  }

  /** The jobs fields leave are those of the typed fields that are executed. */
  lemma ObjectJobs(x: Exec, objectType: string, source: PyValue, nodes: seq<Selection>, path: Path, serial: bool,
      job: DeferJob)
    requires Finite(x) && KeysOf(Keys(nodes), nodes)
    ensures job in ExecuteFields(x, objectType, source, nodes, Keys(nodes), path, serial).deferred
            <==> exists key :: JobOfField(x, objectType, source, nodes, path, serial, key, job)
  {
    var keys := Keys(nodes);
    var outs := FieldOuts(x, objectType, source, nodes, keys, path);
    FieldsJoin(x, objectType, source, nodes, keys, path, serial);
    JoinedFieldJobs(keys, outs, serial, job);
    if i: nat :| FieldJob(outs, serial, i, job) {
      StartsExactly(x, objectType, source, nodes, path, serial, i);
      UntypedLeavesNone(x, objectType, source, nodes, path, keys[i]);
      FieldIsPosition(x, objectType, source, nodes, path, keys[i]);
      assert JobOfField(x, objectType, source, nodes, path, serial, keys[i], job);
    }
    if key :| JobOfField(x, objectType, source, nodes, path, serial, key, job) {
      var i := KeyIndex(nodes, key);
      StartsExactly(x, objectType, source, nodes, path, serial, i);
      FieldIsPosition(x, objectType, source, nodes, path, key);
      assert FieldJob(outs, serial, i, job);
    }
  }

  lemma ListJobs(x: Exec, p: Position, job: DeferJob)
    requires Finite(x) && p.nodes != [] && Strip(p.t).ListType? && p.raw.Returned? && p.raw.value.PyList?
    ensures job in CompleteValue(x, Strip(p.t), p.nodes, p.path, p.raw.value).deferred <==> JobOfSomeChild(x, p, job)
  {
    var u, items := Strip(p.t).ofType, Shown(x, p.nodes, p.raw.value.items);
    var outs := ItemOuts(x, u, p.nodes, p.path, items, 0);
    ListJoins(x, u, p.nodes, p.path, p.raw.value.items);
    JoinedItemJobs(outs, job);
    if i: nat :| ItemJob(outs, i, job) { assert JobOfChild(x, p, Index(i), job); }
    if step :| JobOfChild(x, p, step, job) { assert ItemJob(outs, step.i, job); }
  }

  lemma CompositeJobs(x: Exec, p: Position, objectType: string, job: DeferJob)
    requires Finite(x) && p.nodes != [] && IsObject(x, p, objectType)
    ensures var sub := SubWalk(x, objectType, p.nodes);
            KeysOf(Keys(sub.nodes), sub.nodes)
            && (job in CompleteValue(x, Strip(p.t), p.nodes, p.path, p.raw.value).deferred
                <==> QueuedHere(x, p, job)
                     || job in ExecuteFields(x, objectType, p.raw.value, sub.nodes, Keys(sub.nodes), p.path,
                        false).deferred)
  {
    var sub := SubWalk(x, objectType, p.nodes);
    AllKeys(sub.nodes);
    JobsOfSets(objectType, p.raw.value, p.path, sub.deferred, job);
    SetAsideBelow(x, objectType, p.nodes, job.selections);
  }

  lemma ObjectLevelJobs(x: Exec, p: Position, objectType: string, job: DeferJob)
    requires Finite(x) && p.nodes != [] && IsObject(x, p, objectType)
    ensures job in CompleteValue(x, Strip(p.t), p.nodes, p.path, p.raw.value).deferred
            <==> QueuedHere(x, p, job) || JobOfSomeChild(x, p, job)
  {
    var value, sub := p.raw.value, SubWalk(x, objectType, p.nodes).nodes;
    CompositeJobs(x, p, objectType, job);
    ObjectJobs(x, objectType, value, sub, p.path, false, job);
    if key :| JobOfField(x, objectType, value, sub, p.path, false, key, job) {
      ChildIsField(x, p, Strip(p.t).name, Key(key));
      assert JobOfChild(x, p, Key(key), job);
    }
    if step :| JobOfChild(x, p, step, job) {
      ChildIsField(x, p, Strip(p.t).name, step);
      assert JobOfField(x, objectType, value, sub, p.path, false, step.key, job);
    }
  }

  /** A position leaves the jobs of its own object and those of its children. */
  lemma LevelJobs(x: Exec, p: Position, job: DeferJob)
    requires Finite(x) && p.nodes != []
    ensures job in Outcome(x, p).deferred <==> QueuedHere(x, p, job) || JobOfSomeChild(x, p, job)
  {
    if p.raw.Returned? {
      var value := p.raw.value;
      StripNotNonNull(p.t);
      if p.t.NonNull? { Stripped(x, p.t, p.nodes, p.path, value); }
      if !value.PyNull? {
        match Strip(p.t)
        case ListType(u) => if value.PyList? { ListJobs(x, p, job); }
        case NamedType(name) =>
          if !IsLeaf(x.env, name) && IsComposite(x.env, name) && Infers(ConcreteType(x, name, value)) {
            ObjectLevelJobs(x, p, ConcreteType(x, name, value).name.value, job);
          }
        case NonNull(_) =>
      }
    }
  }

  // ----- exactly the jobs of the objects below --------------------------------------------------------

  ghost predicate QueuedAt(x: Exec, p: Position, path: Path, job: DeferJob) {
    PositionAt(x, p, path).Some? && QueuedHere(x, PositionAt(x, p, path).value, job)
  }

  lemma {:induction false} JobHasPosition(x: Exec, p: Position, job: DeferJob) returns (path: Path)
    requires Finite(x) && p.nodes != [] && job in Outcome(x, p).deferred
    ensures QueuedAt(x, p, path, job)
    decreases Size(p.nodes, x.weight), Depth(p.t)
  {
    LevelJobs(x, p, job);
    if QueuedHere(x, p, job) {
      path := [];
    } else {
      var step :| JobOfChild(x, p, step, job);
      ChildSmaller(x, p, step);
      var rest := JobHasPosition(x, Child(x, p, step).value, job);
      path := [step] + rest;
      assert path[1..] == rest;
    }
  }

  lemma {:induction false} PositionQueues(x: Exec, p: Position, path: Path, job: DeferJob)
    requires Finite(x) && p.nodes != [] && QueuedAt(x, p, path, job)
    ensures job in Outcome(x, p).deferred
    decreases |path|
  {
    LevelJobs(x, p, job);
    if path != [] {
      ChildHasNodes(x, p, path[0]);
      PositionQueues(x, Child(x, p, path[0]).value, path[1..], job);
      assert JobOfChild(x, p, path[0], job);
    }
  }

  /** The object at `rel` below another one sets the job aside, and its field is executed. */
  ghost predicate QueuedIn(x: Exec, objectType: string, source: PyValue, nodes: seq<Selection>, path: Path,
      serial: bool, rel: Path, job: DeferJob)
    requires Finite(x)
  {
    var p := PositionIn(x, objectType, source, nodes, path, rel);
    p.Some? && QueuedHere(x, p.value, job) && Starts(x, objectType, source, nodes, path, serial, rel[0].key)
  }

  ghost predicate QueuedBelow(x: Exec, objectType: string, source: PyValue, nodes: seq<Selection>, path: Path,
      serial: bool, job: DeferJob)
    requires Finite(x)
  {
    exists rel: Path :: QueuedIn(x, objectType, source, nodes, path, serial, rel, job)
  }

  lemma FieldsJobsExactly(x: Exec, objectType: string, source: PyValue, nodes: seq<Selection>, path: Path,
      serial: bool, job: DeferJob)
    requires Finite(x) && KeysOf(Keys(nodes), nodes)
    ensures job in ExecuteFields(x, objectType, source, nodes, Keys(nodes), path, serial).deferred
            <==> QueuedBelow(x, objectType, source, nodes, path, serial, job)
  {
    ObjectJobs(x, objectType, source, nodes, path, serial, job);
    if key :| JobOfField(x, objectType, source, nodes, path, serial, key, job) {
      var below := JobHasPosition(x, FieldPosition(x, objectType, source, nodes, path, key).value, job);
      assert ([Key(key)] + below)[1..] == below;
      assert QueuedIn(x, objectType, source, nodes, path, serial, [Key(key)] + below, job);
    }
    if rel: Path :| QueuedIn(x, objectType, source, nodes, path, serial, rel, job) {
      PositionQueues(x, FieldPosition(x, objectType, source, nodes, path, rel[0].key).value, rel[1..], job);
      assert JobOfField(x, objectType, source, nodes, path, serial, rel[0].key, job);
    }
  }

  /** The job holds a fragment that `ss` sets aside for the object itself. */
  ghost predicate QueuedByRoot(x: Exec, objectType: string, source: PyValue, ss: seq<Selection>, path: Path,
      job: DeferJob)
  {
    && job.objectType == objectType && job.source == source && job.path == path
    && Defers(x.env, objectType, ss, job.selections, x.incremental)
  }

  lemma RootJobs(x: Exec, objectType: string, source: PyValue, ss: seq<Selection>, path: Path, job: DeferJob)
    ensures job in DeferJobs(objectType, source, path, Walk(x.env, objectType, ss, {}, x.incremental).deferred)
            <==> QueuedByRoot(x, objectType, source, ss, path, job)
  {
    JobsOfSets(objectType, source, path, Walk(x.env, objectType, ss, {}, x.incremental).deferred, job);
    SetAsideExactly(x.env, objectType, ss, job.selections, x.incremental);
  }

  /** An operation queues a deferred fragment exactly when its selection set, or an object executed below it, sets
      the fragment aside; errors beside or above it do not matter. */
  lemma QueuedExactly(x: Exec, rootType: string, rootValue: PyValue, ss: seq<Selection>, mutation: bool, job: DeferJob)
    requires Finite(x)
    ensures job in ExecuteOperation(x, rootType, rootValue, ss, mutation).deferred
            <==> QueuedByRoot(x, rootType, rootValue, ss, [], job)
                 || QueuedBelow(x, rootType, rootValue, Walk(x.env, rootType, ss, {}, x.incremental).nodes, [],
                    mutation,
                                job)
  {
    var nodes := Walk(x.env, rootType, ss, {}, x.incremental).nodes;
    AllKeys(nodes);
    RootJobs(x, rootType, rootValue, ss, [], job);
    FieldsJobsExactly(x, rootType, rootValue, nodes, [], mutation, job);
  }

  /** Serving a deferred fragment queues in the same way what is deferred within it. */
  lemma DeferredQueuesExactly(x: Exec, served: DeferJob, job: DeferJob)
    requires Finite(x)
    ensures job in ResolveDeferred(x, served).deferred
            <==> QueuedByRoot(x, served.objectType, served.source, served.selections, served.path, job)
                 || QueuedBelow(x, served.objectType, served.source, DeferredNodes(x, served), served.path, false, job)
  {
    AllKeys(DeferredNodes(x, served));
    RootJobs(x, served.objectType, served.source, served.selections, served.path, job);
    FieldsJobsExactly(x, served.objectType, served.source, DeferredNodes(x, served), served.path, false, job);
  }

  /** And so does completing a streamed item. */
  lemma ItemQueuesExactly(x: Exec, served: StreamJob, job: DeferJob)
    requires Finite(x) && served.nodes != [] && served.items != []
    ensures job in ResolveItem(x, served).deferred <==> exists path :: QueuedAt(x, ItemPosition(served), path, job)
  {
    if job in ResolveItem(x, served).deferred { var path := JobHasPosition(x, ItemPosition(served), job); }
    if path :| QueuedAt(x, ItemPosition(served), path, job) { PositionQueues(x, ItemPosition(served), path, job); }
  }
}
