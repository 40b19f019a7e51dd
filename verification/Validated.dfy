/** What a clean validation result is worth to the executor: fragments without cycles give it a bound, and
    merged fields without conflicts make incremental delivery agree with the one-shot answer. */
module Validated {
  import opened Ast
  import opened CollectFields
  import opened Executor
  import opened NullPropagation
  import opened Reports
  import opened Gist
  import opened Delivery
  import opened Answer
  import opened FieldMerging
  import FragmentCycles

  /** The rules of the validator that execution leans on, without complaint: no fragment cycle, valid
      selections, mergeable fields; and the operation stays off the introspection fields. */
  ghost predicate Passes(env: Env, query: string, ss: seq<Selection>, rootType: string) {
    && !FragmentCycles.HasCycle(env.fragments)
    && ValidDocument(env, query) && Fine(env, query, ss, rootType)
    && forall weight: map<string, nat> | Bounds(env.fragments, weight) :: Merges(env, weight, ss, rootType)
  }

  /** An executor for a validated operation exists, whatever the resolvers do, and the nodes it collects
      are one field with one argument map per response key, at every depth. */
  lemma ValidatedExecutes(env: Env, world: World, query: string, ss: seq<Selection>, rootType: string) returns (x: Exec)
    requires Passes(env, query, ss, rootType)
    ensures x.env == env && x.world == world && x.incremental && Finite(x)
    ensures Consistent(OneShot(x), rootType, Walk(env, rootType, ss, {}, false).nodes)
  {
    FragmentCycles.AcyclicExactlyWhenBounded(env.fragments);
    var weight :| Bounds(env.fragments, weight);
    x := Exec(env, weight, world, true);
    ValidatedMerging(OneShot(x), query, ss, rootType);
  }

  /** So for a validated operation whose one-shot run records no error, the incremental payloads together
      place at every path exactly what the one-shot response holds there. */
  lemma ValidatedDelivery(x: Exec, query: string, rootType: string, rootValue: PyValue, ss: seq<Selection>,
      mutation: bool, f: Fact)
    requires Finite(x) && x.incremental && Passes(x.env, query, ss, rootType)
    requires Sound(OneShot(x)) && ExecuteOperation(OneShot(x), rootType, rootValue, ss, mutation).errors == []
    ensures AnyTells(RunIncremental(x, rootType, rootValue, ss, mutation), f)
            <==> Answers(OneShot(x), rootType, rootValue, ss, mutation, f)
  {
    ValidatedMerging(OneShot(x), query, ss, rootType);
    PayloadsAreTheAnswer(x, rootType, rootValue, ss, mutation, f);
  }

  // ----- no field is unknown ----------------------------------------------------------------------

  /** The nodes are among those some valid, mergeable selections yield on the object type. */
  ghost predicate Backed(y: Exec, query: string, T: string, nodes: seq<Selection>)
    requires Ready(y)
  {
    exists ss :: BackedBy(y, query, T, nodes, ss)
  }

  ghost predicate BackedBy(y: Exec, query: string, T: string, nodes: seq<Selection>, ss: seq<Selection>)
    requires Ready(y)
  {
    && Fine(y.env, query, ss, T) && Merges(y.env, y.weight, ss, T)
    && forall n <- nodes :: n in Walk(y.env, T, ss, {}, false).nodes
  }

  lemma KnownField(y: Exec, query: string, T: string, nodes: seq<Selection>, key: string)
    requires Ready(y) && ValidDocument(y.env, query) && Backed(y, query, T, nodes)
    ensures !UnknownField(y, T, nodes, key)
  {
    if Under(nodes, key) != [] {
      var n := Under(nodes, key)[0];
      UnderExact(nodes, key);
      BackedFine(y, query, T, nodes, n);
      assert n in [n] && ValidSelection(y.env, query, n, T) && NoIntrospectionOne(n);
    }
  }

  lemma BackedFine(y: Exec, query: string, T: string, nodes: seq<Selection>, n: Selection)
    requires Ready(y) && ValidDocument(y.env, query) && Backed(y, query, T, nodes) && n in nodes
    ensures Fine(y.env, query, [n], T)
  {
    var ss :| BackedBy(y, query, T, nodes, ss);
    CollectedIsGathered(y.env, T, ss, T, n);
    GatherFine(y.env, query, ss, T, {});
    var f :| f in FieldMerging.Gather(y.env, ss, T, {}).found && f.node == n;
  }

  /** Whatever object is completed at the position, its fields are backed. */
  ghost predicate BackedBelow(y: Exec, query: string, p: Position)
    requires Ready(y)
  {
    && p.nodes != []
    && (IsComposite(y.env, NamedOf(p.t)) ==> Backed(y, query, NamedOf(p.t), SubWalk(y, NamedOf(p.t), p.nodes).nodes))
  }

  lemma FieldBacked(y: Exec, query: string, T: string, source: PyValue, nodes: seq<Selection>, path: Path, key: string)
    requires Ready(y) && ValidDocument(y.env, query) && Backed(y, query, T, nodes)
    requires FieldPosition(y, T, source, nodes, path, key).Some?
    ensures BackedBelow(y, query, FieldPosition(y, T, source, nodes, path, key).value)
  {
    var ss :| BackedBy(y, query, T, nodes, ss);
    var n := Under(nodes, key)[0];
    UnderExact(nodes, key);
    assert n in nodes && ResponseKey(n) == key;
    if Descends(y.env, T, n) {
      var U := TypeBelow(y.env, T, n);
      var combined := Combined(FoundUnder(FieldMerging.Gather(y.env, ss, T, {}).found, key));
      var below := SubWalk(y, U, Under(nodes, key)).nodes;
      GroupBelow(y, query, ss, T, n);
      forall m <- below ensures m in Walk(y.env, U, combined, {}, false).nodes {
        SubWalkWithin(y, ss, T, U, nodes, key, m);
      }
      assert BackedBy(y, query, U, below, combined);
    }
  }

  lemma {:induction false} StripNamed(t: TypeRef)
    ensures NamedOf(Strip(t)) == NamedOf(t)
  {
    if t.NonNull? { StripNamed(t.ofType); }
  }

  lemma ChildBacked(y: Exec, query: string, p: Position, step: Step)
    requires Ready(y) && ValidDocument(y.env, query) && BackedBelow(y, query, p)
    ensures !UnknownChild(y, p, step)
    ensures Child(y, p, step).Some? ==> BackedBelow(y, query, Child(y, p, step).value)
  {
    StripNamed(p.t);
    if p.raw.Returned? && Strip(p.t).NamedType? && step.Key? && IsComposite(y.env, Strip(p.t).name) {
      var T := Strip(p.t).name;
      var below := SubWalk(y, T, p.nodes).nodes;
      KnownField(y, query, T, below, step.key);
      if Child(y, p, step).Some? { FieldBacked(y, query, T, p.raw.value, below, p.path, step.key); }
    }
  }

  lemma {:induction false} NoneUnknownAt(y: Exec, query: string, p: Position, path: Path)
    requires Ready(y) && ValidDocument(y.env, query) && BackedBelow(y, query, p)
    ensures !UnknownAt(y, p, path)
    decreases |path|
  {
    if path != [] {
      ChildBacked(y, query, p, path[0]);
      if Child(y, p, path[0]).Some? { NoneUnknownAt(y, query, Child(y, p, path[0]).value, path[1..]); }
    }
  }

  /** Every null in the response to a validated operation, the response itself included, is one a resolver
      returned where the type allows it, or has a recorded error at or beneath it. */
  lemma ValidatedNullsExplained(x: Exec, query: string, rootType: string, rootValue: PyValue, ss: seq<Selection>,
                                mutation: bool, path: Path)
    requires Ready(x) && Sound(x) && Passes(x.env, query, ss, rootType)
    requires DataAt(Response(x, rootType, rootValue, ss, mutation), path) == Some(JNull)
    ensures var p := OperationPosition(x, rootType, rootValue, ss, path);
            || (p.Some? && ReturnedNull(p.value))
            || ErrorBeneath(ExecuteOperation(x, rootType, rootValue, ss, mutation).errors, path)
  {
    NullsExplained(x, rootType, rootValue, ss, mutation, path);
    if UnknownInResponse(x, rootType, rootValue, ss, path) {
      var nodes := Walk(x.env, rootType, ss, {}, false).nodes;
      assert BackedBy(x, query, rootType, nodes, ss);
      KnownField(x, query, rootType, nodes, path[0].key);
      var field := FieldPosition(x, rootType, rootValue, nodes, [], path[0].key).value;
      FieldBacked(x, query, rootType, rootValue, nodes, [], path[0].key);
      NoneUnknownAt(x, query, field, path[1..]);
      assert false;
    }
  }
}
