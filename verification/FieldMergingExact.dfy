/** What the overlapping-fields rule decides, told from the document: which fields it compares, and that it is
    silent exactly when those under every response path agree in name and in what their arguments mean. */
module FieldMergingExact {
  import opened Ast
  import opened Arguments
  import opened Executor
  import opened Gist
  import opened FieldMerging
  import Selected

  // ----- which fields it compares -------------------------------------------------------------------

  /** Going from `ss`, selected on `parent`, into the fragments of `via`, whatever their conditions, one comes to
      the field found; it is selected on the last condition on the way that names a type. */
  ghost predicate Opens(env: Env, ss: seq<Selection>, parent: string, via: seq<Selection>, f: Found)
    decreases |via|
  {
    if via == [] then f.node in ss && f.node.Field? && f.parent == parent
    else
      && via[0] in ss
      && match via[0]
         case Field(_, _, _, _, _) => false
         case InlineFragment(None, _, selections) => Opens(env, selections, parent, via[1..], f)
         case InlineFragment(Some(t), _, selections) =>
           Opens(env, selections, if t in env.types then t else parent, via[1..], f)
         case FragmentSpread(name, _) =>
           name in env.fragments
           && var t := env.fragments[name].condition;
              Opens(env, env.fragments[name].selections, if t in env.types then t else parent, via[1..], f)
  }

  ghost predicate Has(env: Env, ss: seq<Selection>, parent: string, f: Found) {
    exists via :: Opens(env, ss, parent, via, f)
  }

  /** `s` is a fragment whose selections are `body`, selected on `target`. */
  predicate IsBody(env: Env, s: Selection, parent: string, body: seq<Selection>, target: string) {
    match s
    case Field(_, _, _, _, _) => false
    case InlineFragment(condition, _, selections) => body == selections && target == Target(env, condition, parent)
    case FragmentSpread(name, _) =>
      name in env.fragments && body == env.fragments[name].selections
      && target == Target(env, Some(env.fragments[name].condition), parent)
  }

  lemma HasThrough(env: Env, ss: seq<Selection>, parent: string, s: Selection, body: seq<Selection>, target: string,
      f: Found)
    requires s in ss && IsBody(env, s, parent, body, target) && Has(env, body, target, f)
    ensures Has(env, ss, parent, f)
  {
    var via :| Opens(env, body, target, via, f);
    assert ([s] + via)[1..] == via;
    assert Opens(env, ss, parent, [s] + via, f);
  }

  lemma HasMore(env: Env, ss: seq<Selection>, more: seq<Selection>, parent: string, f: Found)
    requires Has(env, ss, parent, f) && forall s <- ss :: s in more
    ensures Has(env, more, parent, f)
  {
    var via :| Opens(env, ss, parent, via, f);
    assert Opens(env, more, parent, via, f);
  }

  lemma {:induction false} GatherHas(env: Env, ss: seq<Selection>, parent: string, visited: set<string>)
    ensures forall f <- Gather(env, ss, parent, visited).found :: Has(env, ss, parent, f)
    decreases env.fragments.Keys - visited, ss
  {
    if ss != [] {
      var h := GatherOne(env, ss[0], parent, visited);
      var t := Gather(env, ss[1..], parent, h.visited);
      GatherOneHas(env, ss[0], parent, visited);
      GatherHas(env, ss[1..], parent, h.visited);
      forall f <- h.found ensures Has(env, ss, parent, f) { HasMore(env, [ss[0]], ss, parent, f); }
      forall f <- t.found ensures Has(env, ss, parent, f) { HasMore(env, ss[1..], ss, parent, f); }
    }
  }

  lemma {:induction false} GatherOneHas(env: Env, s: Selection, parent: string, visited: set<string>)
    ensures forall f <- GatherOne(env, s, parent, visited).found :: Has(env, [s], parent, f)
    decreases env.fragments.Keys - visited, s
  {
    match s
    case Field(_, _, _, _, _) => assert Opens(env, [s], parent, [], Found(s, parent));
    case InlineFragment(condition, _, selections) =>
      var target := Target(env, condition, parent);
      GatherHas(env, selections, target, visited);
      forall f <- Gather(env, selections, target, visited).found ensures Has(env, [s], parent, f) {
        HasThrough(env, [s], parent, s, selections, target, f);
      }
    case FragmentSpread(name, _) =>
      if name in env.fragments && name !in visited {
        var body, target := env.fragments[name].selections, Target(env, Some(env.fragments[name].condition), parent);
        GatherHas(env, body, target, visited + {name});
        forall f <- Gather(env, body, target, visited + {name}).found ensures Has(env, [s], parent, f) {
          HasThrough(env, [s], parent, s, body, target, f);
        }
      }
  }

  lemma {:induction false} OpenedIsFound(env: Env, ss: seq<Selection>, parent: string, via: seq<Selection>, f: Found,
      g: Gathered)
    requires Holds(env, ss, g) && forall name <- g.visited :: FragmentHeld(env, name, g)
    requires Opens(env, ss, parent, via, f)
    ensures exists found <- g.found :: found.node == f.node
    decreases |via|
  {
    if via == [] {
      assert HoldsOne(env, f.node, g);
    } else {
      var s := via[0];
      var condition := if s.InlineFragment? then s.condition else Some(env.fragments[s.name].condition);
      assert HoldsOne(env, s, g);
      OpenedIsFound(env, if s.InlineFragment? then s.selections else env.fragments[s.name].selections,
        Target(env, condition, parent), via[1..], f, g);
    }
  }

  /** The rule gathers the fields that the selection set leads to through fragments, whatever their type conditions
      and directives: every such field, each on a type it is selected on, and nothing else. */
  lemma GathersExactly(env: Env, ss: seq<Selection>, parent: string)
    ensures forall f <- Gather(env, ss, parent, {}).found :: Has(env, ss, parent, f)
    ensures forall f | Has(env, ss, parent, f) :: exists found <- Gather(env, ss, parent, {}).found ::
            found.node == f.node
  {
    GatherHas(env, ss, parent, {});
    GatherHolds(env, ss, parent, {});
    forall f | Has(env, ss, parent, f) ensures exists found <- Gather(env, ss, parent, {}).found ::
      found.node == f.node {
      var via :| Opens(env, ss, parent, via, f);
      OpenedIsFound(env, ss, parent, via, f, Gather(env, ss, parent, {}));
    }
  }

  // ----- when fields under one key agree ---------------------------------------------------------------

  ghost predicate Agree(a: Selection, b: Selection) {
    a.Field? && b.Field? && a.name == b.name && SameArguments(a.arguments, b.arguments)
  }

  lemma AlikeExactly(a: Selection, b: Selection)
    ensures Alike(a, b) <==> Agree(a, b)
  {
    if a.Field? && b.Field? { ArgumentsMapsAgree(a.arguments, b.arguments); }
  }

  ghost predicate AllAgree(group: seq<Found>) { forall f <- group, g <- group :: Agree(f.node, g.node) }

  /** Comparing all with the first is comparing all with each other. */
  lemma NoConflictExactly(group: seq<Found>)
    requires forall f <- group :: f.node.Field?
    ensures NoConflict(group) <==> AllAgree(group)
  {
    forall f, g | f in group && g in group ensures Alike(f.node, g.node) <==> Agree(f.node, g.node) {
      AlikeExactly(f.node, g.node);
    }
    if NoConflict(group) {
      forall f, g | f in group && g in group ensures Agree(f.node, g.node) {
        assert Alike(group[0].node, f.node) && Alike(group[0].node, g.node);
      }
    }
    if AllAgree(group) && group != [] {
      forall f | f in group ensures Alike(group[0].node, f.node) { assert Agree(group[0].node, f.node); }
    }
  }

  // ----- where the rule goes on --------------------------------------------------------------------------

  predicate HasBraces(f: Found) { f.node.Field? && f.node.selectionSet.SelectionSet? }

  /** `t` is the type called `named` under any number of wrappers. */
  predicate Wraps(t: TypeRef, named: string) {
    match t
    case NamedType(name) => name == named
    case ListType(u) => Wraps(u, named)
    case NonNull(u) => Wraps(u, named)
  }

  lemma {:induction false} WrapsExactly(t: TypeRef, named: string)
    ensures Wraps(t, named) <==> NamedOf(t) == named
  {
    match t
    case NamedType(_) =>
    case ListType(u) => WrapsExactly(u, named);
    case NonNull(u) => WrapsExactly(u, named);
  }

  /** The object or interface type `parent` declares the field, whose type is called `named`. */
  predicate Declares(env: Env, parent: string, field: string, named: string) {
    && parent in env.types && (env.types[parent].ObjectType? || env.types[parent].InterfaceType?)
    && field in env.types[parent].fields && Wraps(env.types[parent].fields[field], named)
  }

  /** Entry `i` is the first with braces, and its declared field has the composite type `named` inside. */
  predicate TypesBelow(env: Env, group: seq<Found>, i: nat, named: string) {
    && i < |group| && HasBraces(group[i]) && (forall j | 0 <= j < i :: !HasBraces(group[j]))
    && Declares(env, group[i].parent, group[i].node.name, named) && IsComposite(env, named)
  }

  lemma {:induction false} BracesFirst(group: seq<Found>) returns (i: nat)
    ensures if WithBraces(group) == [] then forall f <- group :: !HasBraces(f)
            else && i < |group| && WithBraces(group)[0] == group[i] && HasBraces(group[i])
                 && forall j | 0 <= j < i :: !HasBraces(group[j])
  {
    i := 0;
    if group != [] && !HasBraces(group[0]) {
      var k := BracesFirst(group[1..]);
      i := k + 1;
      assert WithBraces(group) == WithBraces(group[1..]);
      assert forall j | 0 < j < |group| :: group[j] == group[1..][j - 1];
    }
  }

  /** Below a group the rule goes on exactly with the type of its first entry with braces. */
  lemma GoesOnExactly(env: Env, group: seq<Found>, named: string)
    ensures GoesOn(env, group) == Some(named) <==> exists i: nat :: TypesBelow(env, group, i, named)
  {
    var k := BracesFirst(group);
    forall f <- group | f.node.Field? && f.node.name in DeclaredFields(env, f.parent)
      ensures Wraps(DeclaredFields(env, f.parent)[f.node.name], named)
              <==> NamedOf(DeclaredFields(env, f.parent)[f.node.name]) == named
    {
      WrapsExactly(DeclaredFields(env, f.parent)[f.node.name], named);
    }
    if GoesOn(env, group) == Some(named) { assert TypesBelow(env, group, k, named); }
    if i: nat :| TypesBelow(env, group, i, named) { assert group[i] in group; }
  }

  // ----- the rule's verdict --------------------------------------------------------------------------------

  /** The fields under a response path: those of its first key, and on through their merged sub-selections. */
  function FieldsUnder(env: Env, ss: seq<Selection>, parent: string, path: seq<string>): seq<Found>
    requires path != []
    decreases |path|
  {
    var group := FoundUnder(Gather(env, ss, parent, {}).found, path[0]);
    if |path| == 1 then group
    else if GoesOn(env, group).None? then []
    else FieldsUnder(env, Combined(group), GoesOn(env, group).value, path[1..])
  }

  ghost predicate AgreesEverywhere(env: Env, ss: seq<Selection>, parent: string) {
    forall path: seq<string> | path != [] :: AllAgree(FieldsUnder(env, ss, parent, path))
  }

  lemma GroupIsFields(env: Env, ss: seq<Selection>, parent: string, key: string)
    ensures forall f <- FoundUnder(Gather(env, ss, parent, {}).found, key) :: f.node.Field?
  {
    var found := Gather(env, ss, parent, {}).found;
    forall f <- FoundUnder(found, key) ensures f.node.Field? { FoundUnderExact(found, key, f); }
  }

  lemma {:induction false} SilentAgrees(env: Env, weight: map<string, nat>, ss: seq<Selection>, parent: string,
      path: seq<string>)
    requires Bounds(env.fragments, weight) && Merges(env, weight, ss, parent) && path != []
    ensures AllAgree(FieldsUnder(env, ss, parent, path))
    decreases |path|
  {
    var found := Gather(env, ss, parent, {}).found;
    var group := FoundUnder(found, path[0]);
    if group != [] {
      FoundUnderExact(found, path[0], group[0]);
      GroupIsFields(env, ss, parent, path[0]);
      NoConflictExactly(group);
      if |path| > 1 && GoesOn(env, group).Some? {
        SilentAgrees(env, weight, Combined(group), GoesOn(env, group).value, path[1..]);
      }
    }
  }

  lemma AgreesBelow(env: Env, ss: seq<Selection>, parent: string, key: string)
    requires AgreesEverywhere(env, ss, parent)
    requires GoesOn(env, FoundUnder(Gather(env, ss, parent, {}).found, key)).Some?
    ensures var group := FoundUnder(Gather(env, ss, parent, {}).found, key);
            AllAgree(group) && AgreesEverywhere(env, Combined(group), GoesOn(env, group).value)
  {
    var group := FoundUnder(Gather(env, ss, parent, {}).found, key);
    assert FieldsUnder(env, ss, parent, [key]) == group;
    forall path: seq<string> | path != []
      ensures AllAgree(FieldsUnder(env, Combined(group), GoesOn(env, group).value, path))
    {
      assert ([key] + path)[1..] == path;
      assert AllAgree(FieldsUnder(env, ss, parent, [key] + path));
    }
  }

  lemma {:induction false} AgreeingIsSilent(env: Env, weight: map<string, nat>, ss: seq<Selection>, parent: string)
    requires Bounds(env.fragments, weight) && AgreesEverywhere(env, ss, parent)
    ensures Merges(env, weight, ss, parent)
    decreases Size(ss, weight)
  {
    var found := Gather(env, ss, parent, {}).found;
    forall f <- found
      ensures NoConflict(FoundUnder(found, ResponseKey(f.node)))
      ensures var group := FoundUnder(found, ResponseKey(f.node));
              GoesOn(env, group).Some? ==> Merges(env, weight, Combined(group), GoesOn(env, group).value)
    {
      var key := ResponseKey(f.node);
      var group := FoundUnder(found, key);
      assert FieldsUnder(env, ss, parent, [key]) == group;
      GroupIsFields(env, ss, parent, key);
      NoConflictExactly(group);
      if GoesOn(env, group).Some? {
        CombinedSmaller(env, weight, ss, parent, key);
        AgreesBelow(env, ss, parent, key);
        AgreeingIsSilent(env, weight, Combined(group), GoesOn(env, group).value);
      }
    }
  }

  /** The rule is silent exactly when under every response path all fields agree. */
  lemma SilentExactly(env: Env, weight: map<string, nat>, ss: seq<Selection>, parent: string)
    requires Bounds(env.fragments, weight)
    ensures Merges(env, weight, ss, parent) <==> AgreesEverywhere(env, ss, parent)
  {
    if Merges(env, weight, ss, parent) {
      forall path: seq<string> | path != [] ensures AllAgree(FieldsUnder(env, ss, parent, path)) {
        SilentAgrees(env, weight, ss, parent, path);
      }
    }
    if AgreesEverywhere(env, ss, parent) {
      AgreeingIsSilent(env, weight, ss, parent);
    }
  }

  // ----- fragments that can apply ------------------------------------------------------------------------------

  /** The members of unions are object types. */
  predicate UnionsOfObjects(env: Env) {
    forall u <- env.types | env.types[u].UnionType? ::
      forall m <- env.types[u].members :: m in env.types && env.types[m].ObjectType?
  }

  /** Some object type is taken in by both conditions. */
  ghost predicate Meet(env: Env, a: string, b: string) {
    exists t :: t in env.types && env.types[t].ObjectType? && Selected.TakesIn(env, a, t) && Selected.TakesIn(env, b, t)
  }

  lemma PossibleExactly(env: Env, a: string, t: string)
    requires UnionsOfObjects(env) && IsComposite(env, a)
    ensures t in PossibleTypes(env, a) <==> t in env.types && env.types[t].ObjectType? && Selected.TakesIn(env, a, t)
  {
  }

  /** Two composite types overlap for the validator exactly when execution can meet an object that fragments on
      both of them apply to. */
  lemma OverlapExactly(env: Env, a: string, b: string)
    requires UnionsOfObjects(env) && IsComposite(env, a) && IsComposite(env, b)
    ensures Overlap(env, a, b) <==> Meet(env, a, b)
  {
    forall t
      ensures t in PossibleTypes(env, a) <==> t in env.types && env.types[t].ObjectType? && Selected.TakesIn(env, a, t)
      ensures t in PossibleTypes(env, b) <==> t in env.types && env.types[t].ObjectType? && Selected.TakesIn(env, b, t)
    {
      PossibleExactly(env, a, t);
      PossibleExactly(env, b, t);
    }
    if Overlap(env, a, b) {
      var t :| t in PossibleTypes(env, a) * PossibleTypes(env, b);
    }
    if t :| t in env.types && env.types[t].ObjectType? && Selected.TakesIn(env, a, t) && Selected.TakesIn(env, b, t) {
      assert t in PossibleTypes(env, a) * PossibleTypes(env, b);
    }
  }

  // ----- selections that pass validation -------------------------------------------------------------------------

  /** The field is introspection, which is checked no further. */
  predicate IsMeta(query: string, parent: string, name: string) {
    name == "__typename" || ((name == "__schema" || name == "__type") && parent == query)
  }

  /** What is checked of one selection on type `parent`: a field is declared, with braces exactly when it needs them;
      a fragment is defined, and its condition overlaps with the type. */
  predicate Passes(env: Env, query: string, s: Selection, parent: string) {
    match s
    case Field(name, _, _, _, sub) =>
      || IsMeta(query, parent, name)
      || (name in DeclaredFields(env, parent)
          && var named := NamedOf(DeclaredFields(env, parent)[name]);
             (IsLeaf(env, named) ==> sub.NoSelectionSet?) && (IsComposite(env, named) ==> sub.SelectionSet?))
    case FragmentSpread(name, _) =>
      name in env.fragments
      && (env.fragments[name].condition in env.types ==> Overlap(env, parent, env.fragments[name].condition))
    case InlineFragment(condition, _, _) =>
      condition.Some? ==> IsComposite(env, condition.value) && Overlap(env, parent, condition.value)
  }

  /** Going from `ss` on `parent` into the fields and inline fragments of `via`, one comes to `s` on type `on`. */
  ghost predicate Stands(env: Env, query: string, ss: seq<Selection>, parent: string, via: seq<Selection>,
      s: Selection, on: string)
    decreases |via|
  {
    if via == [] then s in ss && on == parent
    else
      && via[0] in ss
      && match via[0]
         case Field(name, _, _, _, sub) =>
           && !IsMeta(query, parent, name) && sub.SelectionSet? && name in DeclaredFields(env, parent)
           && IsComposite(env, NamedOf(DeclaredFields(env, parent)[name]))
           && Stands(env, query, sub.selections, NamedOf(DeclaredFields(env, parent)[name]), via[1..], s, on)
         case FragmentSpread(_, _) => false
         case InlineFragment(None, _, selections) => Stands(env, query, selections, parent, via[1..], s, on)
         case InlineFragment(Some(t), _, selections) => Stands(env, query, selections, t, via[1..], s, on)
  }

  ghost predicate AllPass(env: Env, query: string, ss: seq<Selection>, parent: string) {
    forall via, s, on | Stands(env, query, ss, parent, via, s, on) :: Passes(env, query, s, on)
  }

  lemma {:induction false} StandingPasses(env: Env, query: string, ss: seq<Selection>, parent: string,
      via: seq<Selection>, s: Selection, on: string)
    requires ValidSelections(env, query, ss, parent) && Stands(env, query, ss, parent, via, s, on)
    ensures Passes(env, query, s, on)
    decreases |via|
  {
    var first := if via == [] then s else via[0];
    assert ValidSelection(env, query, first, parent);
    if via != [] {
      match first
      case Field(name, _, _, _, sub) =>
        StandingPasses(env, query, sub.selections, NamedOf(DeclaredFields(env, parent)[name]), via[1..], s, on);
      case InlineFragment(condition, _, selections) =>
        StandingPasses(env, query, selections, if condition.Some? then condition.value else parent, via[1..], s, on);
    }
  }

  lemma AllPassWithin(env: Env, query: string, ss: seq<Selection>, parent: string, first: Selection,
      inner: seq<Selection>, on: string)
    requires AllPass(env, query, ss, parent) && first in ss
    requires forall via, s, u :: Stands(env, query, inner, on, via, s, u)
               ==> Stands(env, query, ss, parent, [first] + via, s, u)
    ensures AllPass(env, query, inner, on)
  {
  }

  lemma {:induction false} PassingIsValid(env: Env, query: string, ss: seq<Selection>, parent: string)
    requires AllPass(env, query, ss, parent)
    ensures ValidSelections(env, query, ss, parent)
    decreases ss, 1
  {
    forall s <- ss ensures ValidSelection(env, query, s, parent) {
      assert Stands(env, query, ss, parent, [], s, parent);
      PassingOneIsValid(env, query, ss, parent, s);
    }
  }

  lemma PassingOneIsValid(env: Env, query: string, ss: seq<Selection>, parent: string, s: Selection)
    requires AllPass(env, query, ss, parent) && s in ss && Passes(env, query, s, parent)
    ensures ValidSelection(env, query, s, parent)
    decreases ss, 0
  {
    forall via: seq<Selection> ensures ([s] + via)[1..] == via {}
    match s
    case Field(name, _, _, _, sub) =>
      if !IsMeta(query, parent, name) && sub.SelectionSet? {
        var named := NamedOf(DeclaredFields(env, parent)[name]);
        if IsComposite(env, named) {
          AllPassWithin(env, query, ss, parent, s, sub.selections, named);
          PassingIsValid(env, query, sub.selections, named);
        }
      }
    case FragmentSpread(_, _) =>
    case InlineFragment(condition, _, selections) =>
      var on := if condition.Some? then condition.value else parent;
      AllPassWithin(env, query, ss, parent, s, selections, on);
      PassingIsValid(env, query, selections, on);
  }

  /** Selections are valid exactly when each selection, on the type it stands on, passes its own check. */
  lemma ValidExactly(env: Env, query: string, ss: seq<Selection>, parent: string)
    ensures ValidSelections(env, query, ss, parent) <==> AllPass(env, query, ss, parent)
  {
    if ValidSelections(env, query, ss, parent) {
      forall via, s, on | Stands(env, query, ss, parent, via, s, on) ensures Passes(env, query, s, on) {
        StandingPasses(env, query, ss, parent, via, s, on);
      }
    }
    if AllPass(env, query, ss, parent) { PassingIsValid(env, query, ss, parent); }
  }
}
