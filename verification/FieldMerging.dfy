/** The overlapping-fields rule of fastql/validation/rules.py, with the selection checks it leans on, and
    why its silence makes execution unambiguous. */
module FieldMerging {
  import opened Ast
  import opened Arguments
  import opened CollectFields
  import opened Executor
  import opened NullPropagation
  import opened Gist

  // ----- selections that pass validation ------------------------------------------------------

  function PossibleTypes(env: Env, name: string): set<string> {
    if name !in env.types then {}
    else
      match env.types[name]
      case ObjectType(_, _) => {name}
      case UnionType(members) => members
      case InterfaceType(_) => set n | n in env.types && env.types[n].ObjectType? && name in env.types[n].interfaces
      case _ => {}
  }

  /** `_types_overlap`. */
  predicate Overlap(env: Env, a: string, b: string) {
    IsComposite(env, a) && IsComposite(env, b) ==> PossibleTypes(env, a) * PossibleTypes(env, b) != {}
  }

  predicate IsIntrospection(name: string) { name == "__schema" || name == "__type" }

  /** The declared fields of an object or interface type. */
  function DeclaredFields(env: Env, name: string): map<string, TypeRef> {
    if name !in env.types then map[]
    else
      match env.types[name]
      case ObjectType(fields, _) => fields
      case InterfaceType(fields) => fields
      case _ => map[]
  }

  /** `_validate_selection_set` records nothing, as far as fields, their sub-selections and fragments go. */
  predicate ValidSelections(env: Env, query: string, ss: seq<Selection>, parent: string)
    decreases ss, 1
  {
    forall s <- ss :: ValidSelection(env, query, s, parent)
  }

  predicate ValidSelection(env: Env, query: string, s: Selection, parent: string)
    decreases s, 0
  {
    match s
    case Field(name, _, _, _, sub) =>
      || name == "__typename"
      || (IsIntrospection(name) && parent == query)
      || (name in DeclaredFields(env, parent)
          && var named := NamedOf(DeclaredFields(env, parent)[name]);
             if IsLeaf(env, named) then sub.NoSelectionSet?
             else IsComposite(env, named) ==> sub.SelectionSet? && ValidSelections(env, query, sub.selections, named))
    case FragmentSpread(name, _) =>
      name in env.fragments && (env.fragments[name].condition in env.types ==>
            Overlap(env, parent, env.fragments[name].condition))
    case InlineFragment(condition, _, selections) =>
      if condition.None? then ValidSelections(env, query, selections, parent)
      else IsComposite(env, condition.value) && Overlap(env, parent, condition.value)
           && ValidSelections(env, query, selections, condition.value)
  }

  /** `_validate_fragment_definition` records nothing for any fragment. */
  predicate ValidFragments(env: Env, query: string) {
    forall f <- env.fragments ::
      IsComposite(env, env.fragments[f].condition)
      && ValidSelections(env, query, env.fragments[f].selections, env.fragments[f].condition)
  }

  // ----- unconditional collection ---------------------------------------------------------------

  /** A field node and the type it is selected on. */
  datatype Found = Found(node: Selection, parent: string)

  datatype Gathered = Gathered(found: seq<Found>, visited: set<string>)

  /** The type a fragment's selections are on: its condition, when the schema has that type. */
  function Target(env: Env, condition: Option<string>, parent: string): string {
    if condition.Some? && condition.value in env.types then condition.value else parent
  }

  /** The fields `_fields_by_response_key` finds, in order; directives and type conditions do not matter. */
  function Gather(env: Env, ss: seq<Selection>, parent: string, visited: set<string>): (g: Gathered)
    ensures visited <= g.visited && forall f <- g.found :: f.node.Field?
    decreases env.fragments.Keys - visited, ss
  {
    if ss == [] then Gathered([], visited)
    else
      var h := GatherOne(env, ss[0], parent, visited);
      var t := Gather(env, ss[1..], parent, h.visited);
      Gathered(h.found + t.found, t.visited)
  }

  function GatherOne(env: Env, s: Selection, parent: string, visited: set<string>): (g: Gathered)
    ensures visited <= g.visited && forall f <- g.found :: f.node.Field?
    decreases env.fragments.Keys - visited, s
  {
    match s
    case Field(_, _, _, _, _) => Gathered([Found(s, parent)], visited)
    case InlineFragment(condition, _, selections) => Gather(env, selections, Target(env, condition, parent), visited)
    case FragmentSpread(name, _) =>
      if name !in env.fragments || name in visited then Gathered([], visited)
      else Gather(env, env.fragments[name].selections, Target(env, Some(env.fragments[name].condition), parent),
        visited + {name})
  }

  function FoundUnder(found: seq<Found>, key: string): seq<Found> {
    if found == [] then []
    else (if ResponseKey(found[0].node) == key then [found[0]] else []) + FoundUnder(found[1..], key)
  }

  function WithBraces(group: seq<Found>): (r: seq<Found>)
    ensures forall f <- r :: f.node.Field? && f.node.selectionSet.SelectionSet?
  {
    if group == [] then []
    else
      (if group[0].node.Field? && group[0].node.selectionSet.SelectionSet? then [group[0]] else [])
      + WithBraces(group[1..])
  }

  /** The selections of all nodes that have some, one after the other. */
  function Combined(group: seq<Found>): seq<Selection> {
    if group == [] then []
    else (if group[0].node.Field? && group[0].node.selectionSet.SelectionSet? then group[0].node.selectionSet.selections
      else [])
         + Combined(group[1..])
  }

  function Nodes(found: seq<Found>): seq<Selection> {
    if found == [] then [] else [found[0].node] + Nodes(found[1..])
  }

  // ----- the rule ----------------------------------------------------------------------------------

  /** Every node agrees with the first in name and arguments. */
  predicate NoConflict(group: seq<Found>) { group != [] ==> forall f <- group :: Alike(group[0].node, f.node) }

  /** The composite type below the group, when the rule goes on there. */
  function GoesOn(env: Env, group: seq<Found>): Option<string> {
    var sub := WithBraces(group);
    if sub == [] || sub[0].node.name !in DeclaredFields(env, sub[0].parent) then None
    else
      var named := NamedOf(DeclaredFields(env, sub[0].parent)[sub[0].node.name]);
      if IsComposite(env, named) then Some(named) else None
  }

  /** `_validate_field_merging` records nothing. */
  predicate Merges(env: Env, weight: map<string, nat>, ss: seq<Selection>, parent: string)
    requires Bounds(env.fragments, weight)
    decreases Size(ss, weight)
  {
    forall f <- Gather(env, ss, parent, {}).found ::
      var group := FoundUnder(Gather(env, ss, parent, {}).found, ResponseKey(f.node));
      && NoConflict(group)
      && (GoesOn(env, group).Some? ==>
            (CombinedSmaller(env, weight, ss, parent, ResponseKey(f.node));
             Merges(env, weight, Combined(group), GoesOn(env, group).value)))
  }

  lemma {:induction false} GatherSize(env: Env, weight: map<string, nat>, ss: seq<Selection>, parent: string,
      visited: set<string>)
    requires Bounds(env.fragments, weight)
    ensures Size(Nodes(Gather(env, ss, parent, visited).found), weight) <= Size(ss, weight)
    decreases env.fragments.Keys - visited, ss
  {
    if ss != [] {
      var h := GatherOne(env, ss[0], parent, visited);
      var t := Gather(env, ss[1..], parent, h.visited);
      GatherOneSize(env, weight, ss[0], parent, visited);
      GatherSize(env, weight, ss[1..], parent, h.visited);
      NodesConcat(h.found, t.found);
      SizeConcat(Nodes(h.found), Nodes(t.found), weight);
    }
  }

  lemma {:induction false} GatherOneSize(env: Env, weight: map<string, nat>, s: Selection, parent: string,
      visited: set<string>)
    requires Bounds(env.fragments, weight)
    ensures Size(Nodes(GatherOne(env, s, parent, visited).found), weight) <= SizeOne(s, weight)
    decreases env.fragments.Keys - visited, s
  {
    match s
    case Field(_, _, _, _, _) =>
      assert Nodes([Found(s, parent)]) == [s] + Nodes([]) && [s][1..] == [];
    case InlineFragment(condition, _, selections) =>
        GatherSize(env, weight, selections, Target(env, condition, parent), visited);
    case FragmentSpread(name, _) =>
      if name in env.fragments && name !in visited {
        GatherSize(env, weight, env.fragments[name].selections,
            Target(env, Some(env.fragments[name].condition), parent), visited + {name});
      }
  }

  lemma {:induction false} NodesConcat(a: seq<Found>, b: seq<Found>)
    ensures Nodes(a + b) == Nodes(a) + Nodes(b)
  {
    if a == [] {
      assert a + b == b;
    } else {
      assert (a + b)[1..] == a[1..] + b;
      NodesConcat(a[1..], b);
    }
  }

  lemma {:induction false} UnderSize(found: seq<Found>, key: string, weight: map<string, nat>)
    ensures Size(Nodes(FoundUnder(found, key)), weight) <= Size(Nodes(found), weight)
  {
    if found != [] {
      var rest := FoundUnder(found[1..], key);
      UnderSize(found[1..], key, weight);
      assert Nodes([found[0]] + rest) == [found[0].node] + Nodes(rest) by { assert ([found[0]] + rest)[1..] == rest; }
      assert [] + rest == rest;
    }
  }

  lemma {:induction false} CombinedSize(group: seq<Found>, weight: map<string, nat>)
    ensures Size(Combined(group), weight) + |WithBraces(group)| <= Size(Nodes(group), weight)
  {
    if group != [] {
      var n := group[0].node;
      CombinedSize(group[1..], weight);
      if n.Field? && n.selectionSet.SelectionSet? {
        SizeConcat(n.selectionSet.selections, Combined(group[1..]), weight);
      } else {
        assert [] + Combined(group[1..]) == Combined(group[1..]);
      }
    }
  }

  lemma CombinedSmaller(env: Env, weight: map<string, nat>, ss: seq<Selection>, parent: string, key: string)
    requires Bounds(env.fragments, weight)
    ensures var group := FoundUnder(Gather(env, ss, parent, {}).found, key);
            GoesOn(env, group).Some? ==> Size(Combined(group), weight) < Size(ss, weight)
  {
    var found := Gather(env, ss, parent, {}).found;
    GatherSize(env, weight, ss, parent, {});
    UnderSize(found, key, weight);
    CombinedSize(FoundUnder(found, key), weight);
  }

  // ----- silence makes execution unambiguous ---------------------------------------------------------

  /** Every composite type is an object type. */
  predicate AllObjects(env: Env) {
    forall n <- env.types :: !env.types[n].InterfaceType? && !env.types[n].UnionType?
  }

  /** No field named `__schema` or `__type` anywhere in the selections. */
  predicate NoIntrospection(ss: seq<Selection>)
    decreases ss, 1
  {
    forall s <- ss :: NoIntrospectionOne(s)
  }

  predicate NoIntrospectionOne(s: Selection)
    decreases s, 0
  {
    match s
    case Field(name, _, _, _, sub) => !IsIntrospection(name) && (sub.SelectionSet? ==> NoIntrospection(sub.selections))
    case FragmentSpread(_, _) => true
    case InlineFragment(_, _, selections) => NoIntrospection(selections)
  }

  predicate FragmentsNoIntrospection(env: Env) {
    forall f <- env.fragments :: NoIntrospection(env.fragments[f].selections)
  }

  lemma OverlapIsSame(env: Env, a: string, b: string)
    requires AllObjects(env) && IsComposite(env, a) && IsComposite(env, b) && Overlap(env, a, b)
    ensures a == b
  {
  }

  /** Selections on an object type, all valid. */
  predicate Fine(env: Env, query: string, ss: seq<Selection>, parent: string) {
    ValidSelections(env, query, ss, parent) && NoIntrospection(ss) && IsComposite(env, parent)
  }

  predicate ValidDocument(env: Env, query: string) {
    AllObjects(env) && ValidFragments(env, query) && FragmentsNoIntrospection(env)
  }

  /** What is gathered is valid where it is selected, on that very type. */
  lemma {:induction false} GatherFine(env: Env, query: string, ss: seq<Selection>, parent: string, visited: set<string>)
    requires ValidDocument(env, query) && Fine(env, query, ss, parent)
    ensures forall f <- Gather(env, ss, parent, visited).found ::
              f.parent == parent
              && Fine(env, query, [f.node], parent)
    decreases env.fragments.Keys - visited, ss
  {
    if ss != [] {
      assert ValidSelection(env, query, ss[0], parent) && NoIntrospectionOne(ss[0]);
      GatherOneFine(env, query, ss[0], parent, visited);
      GatherFine(env, query, ss[1..], parent, GatherOne(env, ss[0], parent, visited).visited);
    }
  }

  lemma {:induction false} GatherOneFine(env: Env, query: string, s: Selection, parent: string, visited: set<string>)
    requires ValidDocument(env, query) && IsComposite(env, parent)
    requires ValidSelection(env, query, s, parent) && NoIntrospectionOne(s)
    ensures forall f <- GatherOne(env, s, parent, visited).found ::
              f.parent == parent
              && Fine(env, query, [f.node], parent)
    decreases env.fragments.Keys - visited, s
  {
    match s
    case Field(_, _, _, _, _) =>
    case InlineFragment(condition, _, selections) =>
      if condition.Some? { OverlapIsSame(env, parent, condition.value); }
      GatherFine(env, query, selections, parent, visited);
    case FragmentSpread(name, _) =>
      if name !in visited {
        OverlapIsSame(env, parent, env.fragments[name].condition);
        GatherFine(env, query, env.fragments[name].selections, parent, visited + {name});
      }
  }

  // ----- gathering finds all that execution collects -------------------------------------------------

  ghost predicate Holds(env: Env, ss: seq<Selection>, g: Gathered) { forall s <- ss :: HoldsOne(env, s, g) }

  ghost predicate HoldsOne(env: Env, s: Selection, g: Gathered) {
    match s
    case Field(_, _, _, _, _) => exists f <- g.found :: f.node == s
    case InlineFragment(_, _, selections) => forall i <- selections :: HoldsOne(env, i, g)
    case FragmentSpread(name, _) => name in env.fragments ==> name in g.visited
  }

  ghost predicate FragmentHeld(env: Env, name: string, g: Gathered) {
    name in env.fragments && Holds(env, env.fragments[name].selections, g)
  }

  predicate Grows(g: Gathered, more: Gathered) { g.visited <= more.visited && forall f <- g.found :: f in more.found }

  lemma HoldsMore(env: Env, s: Selection, g: Gathered, more: Gathered)
    requires HoldsOne(env, s, g) && Grows(g, more)
    ensures HoldsOne(env, s, more)
  {
    if s.InlineFragment? {
      forall i <- s.selections ensures HoldsOne(env, i, more) { HoldsMore(env, i, g, more); }
    }
  }

  lemma HeldMore(env: Env, names: set<string>, g: Gathered, more: Gathered)
    requires (forall n <- names :: FragmentHeld(env, n, g)) && Grows(g, more)
    ensures forall n <- names :: FragmentHeld(env, n, more)
  {
    forall n <- names ensures FragmentHeld(env, n, more) {
      forall s <- env.fragments[n].selections ensures HoldsOne(env, s, more) { HoldsMore(env, s, g, more); }
    }
  }

  lemma {:induction false} GatherHolds(env: Env, ss: seq<Selection>, parent: string, visited: set<string>)
    ensures var g := Gather(env, ss, parent, visited);
            Holds(env, ss, g) && forall n <- g.visited - visited :: FragmentHeld(env, n, g)
    decreases env.fragments.Keys - visited, ss
  {
    if ss != [] {
      var h := GatherOne(env, ss[0], parent, visited);
      var t := Gather(env, ss[1..], parent, h.visited);
      var g := Gather(env, ss, parent, visited);
      GatherOneHolds(env, ss[0], parent, visited);
      GatherHolds(env, ss[1..], parent, h.visited);
      HoldsMore(env, ss[0], h, g);
      forall s <- ss[1..] ensures HoldsOne(env, s, g) { HoldsMore(env, s, t, g); }
      assert forall s <- ss :: s == ss[0] || s in ss[1..];
      HeldMore(env, h.visited - visited, h, g);
      HeldMore(env, t.visited - h.visited, t, g);
    }
  }

  lemma {:induction false} GatherOneHolds(env: Env, s: Selection, parent: string, visited: set<string>)
    ensures var g := GatherOne(env, s, parent, visited);
            HoldsOne(env, s, g) && forall n <- g.visited - visited :: FragmentHeld(env, n, g)
    decreases env.fragments.Keys - visited, s
  {
    match s
    case Field(_, _, _, _, _) => assert Found(s, parent) in GatherOne(env, s, parent, visited).found;
    case InlineFragment(condition, _, selections) =>
        GatherHolds(env, selections, Target(env, condition, parent), visited);
    case FragmentSpread(name, _) =>
      if name in env.fragments && name !in visited {
        GatherHolds(env, env.fragments[name].selections, Target(env, Some(env.fragments[name].condition), parent),
            visited + {name});
      }
  }

  lemma {:induction false} TrailIsFound(env: Env, runtimeType: string, ss: seq<Selection>, via: seq<Selection>,
      n: Selection, g: Gathered)
    requires Holds(env, ss, g) && forall f <- g.visited :: FragmentHeld(env, f, g)
    requires Trail(env, runtimeType, ss, via, n)
    ensures exists f <- g.found :: f.node == n
    decreases |via|
  {
    if via == [] {
      assert HoldsOne(env, n, g);
    } else {
      assert HoldsOne(env, via[0], g);
      TrailIsFound(env, runtimeType, Body(env, via[0]), via[1..], n, g);
    }
  }

  lemma CollectedIsGathered(env: Env, runtimeType: string, ss: seq<Selection>, parent: string, n: Selection)
    requires n in Walk(env, runtimeType, ss, {}, false).nodes
    ensures exists f <- Gather(env, ss, parent, {}).found :: f.node == n
  {
    CollectsExactlyReachable(env, runtimeType, ss, n);
    GatherHolds(env, ss, parent, {});
    var via :| Trail(env, runtimeType, ss, via, n);
    TrailIsFound(env, runtimeType, ss, via, n, Gather(env, ss, parent, {}));
  }

  // ----- the theorem -----------------------------------------------------------------------------------

  lemma {:induction false} FoundUnderExact(found: seq<Found>, key: string, f: Found)
    ensures f in FoundUnder(found, key) <==> f in found && ResponseKey(f.node) == key
  {
    if found != [] { FoundUnderExact(found[1..], key, f); }
  }

  lemma {:induction false} BracesExact(group: seq<Found>, f: Found)
    ensures f in WithBraces(group) <==> f in group && f.node.Field? && f.node.selectionSet.SelectionSet?
    ensures f in WithBraces(group) ==> forall s <- f.node.selectionSet.selections :: s in Combined(group)
  {
    if group != [] { BracesExact(group[1..], f); }
  }

  lemma {:induction false} CombinedFrom(group: seq<Found>, s: Selection) returns (f: Found)
    requires s in Combined(group)
    ensures f in WithBraces(group) && s in f.node.selectionSet.selections
  {
    var n := group[0].node;
    if n.Field? && n.selectionSet.SelectionSet? && s in n.selectionSet.selections {
      f := group[0];
    } else {
      f := CombinedFrom(group[1..], s);
    }
  }

  /** Nodes collected under one key are alike when the rule found no conflict. */
  lemma CollectedAlike(y: Exec, ss: seq<Selection>, T: string, n: Selection, m: Selection)
    requires Ready(y) && Merges(y.env, y.weight, ss, T)
    requires n in Walk(y.env, T, ss, {}, false).nodes && m in Walk(y.env, T, ss, {}, false).nodes
             && ResponseKey(n) == ResponseKey(m)
    ensures Alike(n, m)
  {
    var found := Gather(y.env, ss, T, {}).found;
    CollectedIsGathered(y.env, T, ss, T, n);
    CollectedIsGathered(y.env, T, ss, T, m);
    var f :| f in found && f.node == n;
    var g :| g in found && g.node == m;
    var group := FoundUnder(found, ResponseKey(n));
    FoundUnderExact(found, ResponseKey(n), f);
    FoundUnderExact(found, ResponseKey(n), g);
    assert NoConflict(group);
    assert Alike(group[0].node, n) && Alike(group[0].node, m);
  }

  /** The group's nodes all have braces, valid on the type below. */
  lemma GroupIsBelow(y: Exec, query: string, ss: seq<Selection>, T: string, n: Selection)
    requires Ready(y) && ValidDocument(y.env, query) && Fine(y.env, query, ss, T) && Merges(y.env, y.weight, ss, T)
    requires n in Walk(y.env, T, ss, {}, false).nodes && Descends(y.env, T, n)
    ensures var group := FoundUnder(Gather(y.env, ss, T, {}).found, ResponseKey(n));
            group != [] && forall g <- group :: FieldBelow(y.env, query, g, T, TypeBelow(y.env, T, n), n)
  {
    var found := Gather(y.env, ss, T, {}).found;
    var group := FoundUnder(found, ResponseKey(n));
    CollectedIsGathered(y.env, T, ss, T, n);
    var f :| f in found && f.node == n;
    FoundUnderExact(found, ResponseKey(n), f);
    GatherFine(y.env, query, ss, T, {});
    assert NoConflict(group);
    forall g <- group ensures FieldBelow(y.env, query, g, T, TypeBelow(y.env, T, n), n) {
      FoundUnderExact(found, ResponseKey(n), g);
      NodeBelow(y.env, query, g, T, n, group[0].node);
    }
  }

  lemma NodeBelow(env: Env, query: string, g: Found, T: string, n: Selection, first: Selection)
    requires AllObjects(env) && Fine(env, query, [g.node], T) && g.parent == T && Descends(env, T, n)
    requires Alike(first, n) && Alike(first, g.node)
    ensures FieldBelow(env, query, g, T, TypeBelow(env, T, n), n)
  {
    assert g.node in [g.node];
    assert ValidSelection(env, query, g.node, T) && NoIntrospectionOne(g.node);
  }

  /** So their combined selections are valid there, and the rule went on with them. */
  lemma GroupBelow(y: Exec, query: string, ss: seq<Selection>, T: string, n: Selection)
    requires Ready(y) && ValidDocument(y.env, query) && Fine(y.env, query, ss, T) && Merges(y.env, y.weight, ss, T)
    requires n in Walk(y.env, T, ss, {}, false).nodes && Descends(y.env, T, n)
    ensures var group := FoundUnder(Gather(y.env, ss, T, {}).found, ResponseKey(n));
            var U := TypeBelow(y.env, T, n);
            && Fine(y.env, query, Combined(group), U) && Size(Combined(group), y.weight) < Size(ss, y.weight)
            && Merges(y.env, y.weight, Combined(group), U)
  {
    var found := Gather(y.env, ss, T, {}).found;
    var group := FoundUnder(found, ResponseKey(n));
    GroupIsBelow(y, query, ss, T, n);
    CombinedFine(y.env, query, group, T, n);
    FoundUnderExact(found, ResponseKey(n), group[0]);
    assert GoesOn(y.env, group) == Some(TypeBelow(y.env, T, n));
    CombinedSmaller(y.env, y.weight, ss, T, ResponseKey(n));
    assert group[0] in found && ResponseKey(group[0].node) == ResponseKey(n);
  }

  lemma CombinedFine(env: Env, query: string, group: seq<Found>, T: string, n: Selection)
    requires AllObjects(env) && Descends(env, T, n) && group != []
    requires forall g <- group :: FieldBelow(env, query, g, T, TypeBelow(env, T, n), n)
    ensures Fine(env, query, Combined(group), TypeBelow(env, T, n)) && GoesOn(env, group) == Some(TypeBelow(env, T, n))
  {
    var U := TypeBelow(env, T, n);
    assert FieldBelow(env, query, group[0], T, U, n);
    BracesExact(group, group[0]);
    var first := WithBraces(group)[0];
    BracesExact(group, first);
    assert FieldBelow(env, query, first, T, U, n);
    forall s <- Combined(group) ensures ValidSelection(env, query, s, U) && NoIntrospectionOne(s) {
      var g := CombinedFrom(group, s);
      BracesExact(group, g);
      assert FieldBelow(env, query, g, T, U, n);
    }
  }

  predicate FieldBelow(env: Env, query: string, g: Found, T: string, U: string, n: Selection) {
    && g.parent == T && g.node.Field? && n.Field? && g.node.name == n.name
    && g.node.selectionSet.SelectionSet?
    && ValidSelections(env, query, g.node.selectionSet.selections, U) && NoIntrospection(g.node.selectionSet.selections)
  }

  /** What some of the nodes collected under a key select is within what the combined selections of its group
      select. */
  lemma SubWalkWithin(y: Exec, ss: seq<Selection>, T: string, U: string, some: seq<Selection>, key: string,
      m: Selection)
    requires Ready(y)
    requires forall n <- some :: n in Walk(y.env, T, ss, {}, false).nodes
    requires m in SubWalk(y, U, Under(some, key)).nodes
    ensures m in Walk(y.env, U, Combined(FoundUnder(Gather(y.env, ss, T, {}).found, key)), {}, false).nodes
  {
    var found := Gather(y.env, ss, T, {}).found;
    var group := FoundUnder(found, key);
    SubWalkMember(y, U, Under(some, key));
    var n :| n in Under(some, key) && m in NodeWalk(y, U, n).nodes;
    UnderExact(some, key);
    CollectedIsGathered(y.env, T, ss, T, n);
    var f :| f in found && f.node == n;
    FoundUnderExact(found, key, f);
    BracesExact(group, f);
    CollectsExactlyReachable(y.env, U, n.selectionSet.selections, m);
    ReachesMore(y.env, U, n.selectionSet.selections, Combined(group), m);
    CollectsExactlyReachable(y.env, U, Combined(group), m);
  }

  /** When every composite type is an object type and no introspection field is selected, a selection
      set that validation passes, field merging included, is executed without ambiguity: all nodes the
      executor collects under one key, at every depth, are one field with one argument map. */
  lemma {:induction false} ValidatedMerging(y: Exec, query: string, ss: seq<Selection>, T: string)
    requires Ready(y) && ValidDocument(y.env, query) && Fine(y.env, query, ss, T)
    requires Merges(y.env, y.weight, ss, T)
    ensures Consistent(y, T, Walk(y.env, T, ss, {}, false).nodes)
    decreases Size(ss, y.weight)
  {
    var nodes := Walk(y.env, T, ss, {}, false).nodes;
    forall n, m | n in nodes && m in nodes && ResponseKey(n) == ResponseKey(m) ensures Alike(n, m) {
      CollectedAlike(y, ss, T, n, m);
    }
    forall key | Under(nodes, key) != [] && Descends(y.env, T, Under(nodes, key)[0])
      ensures Mergeable(y, TypeBelow(y.env, T, Under(nodes, key)[0]), Under(nodes, key))
    {
      GroupMergeable(y, query, ss, T, key);
    }
  }

  lemma {:induction false} GroupMergeable(y: Exec, query: string, ss: seq<Selection>, T: string, key: string)
    requires Ready(y) && ValidDocument(y.env, query) && Fine(y.env, query, ss, T) && Merges(y.env, y.weight, ss, T)
    requires var nodes := Walk(y.env, T, ss, {}, false).nodes;
             Under(nodes, key) != []
             && Descends(y.env, T, Under(nodes, key)[0])
    ensures var nodes := Walk(y.env, T, ss, {}, false).nodes;
            Mergeable(y, TypeBelow(y.env, T, Under(nodes, key)[0]), Under(nodes, key))
    decreases Size(ss, y.weight), 0
  {
    var nodes := Walk(y.env, T, ss, {}, false).nodes;
    var n := Under(nodes, key)[0];
    UnderExact(nodes, key);
    assert n in nodes && ResponseKey(n) == key;
    var U := TypeBelow(y.env, T, n);
    var combined := Combined(FoundUnder(Gather(y.env, ss, T, {}).found, key));
    GroupBelow(y, query, ss, T, n);
    ValidatedMerging(y, query, combined, U);
    forall objectType | CanBe(y.env, U, objectType)
      ensures Consistent(y, objectType, SubWalk(y, objectType, Under(nodes, key)).nodes) {
      assert objectType == U;
      var some := SubWalk(y, U, Under(nodes, key)).nodes;
      forall m <- some ensures m in Walk(y.env, U, combined, {}, false).nodes {
        SubWalkWithin(y, ss, T, U, nodes, key, m);
      }
      ConsistentSubset(y, U, some, Walk(y.env, U, combined, {}, false).nodes);
    }
  }
}
