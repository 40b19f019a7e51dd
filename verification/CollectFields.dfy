/** Field collection: the fragment-expanding depth-first walk of fastql/execution/collect_fields.py. */
module CollectFields {
  import opened Ast

  // ----- directives -----------------------------------------------------------

  function BoolValue(value: Value, variables: map<string, VarValue>): VarValue {
    match value
    case Variable(name) => if name in variables then variables[name] else VNull
    case BooleanValue(b) => VBool(b)
    case _ => VNull
  }

  /** The first `if` argument among `arguments`, if any. */
  function IfArgument(arguments: seq<Argument>): Option<Value> {
    if arguments == [] then None
    else if arguments[0].name == "if" then Some(arguments[0].value)
    else IfArgument(arguments[1..])
  }

  /** The value of the first `if` argument on a directive called `name`; VNull without one. */
  function DirectiveIf(directives: seq<Directive>, name: string, variables: map<string, VarValue>): VarValue {
    if directives == [] then VNull
    else if directives[0].name == name && IfArgument(directives[0].arguments).Some? then
      BoolValue(IfArgument(directives[0].arguments).value, variables)
    else DirectiveIf(directives[1..], name, variables)
  }

  predicate ShouldInclude(directives: seq<Directive>, variables: map<string, VarValue>) {
    DirectiveIf(directives, "skip", variables) != VBool(true)
    && DirectiveIf(directives, "include", variables) != VBool(false)
  }

  predicate Truthy(value: VarValue) {
    match value
    case VNull => false
    case VBool(b) => b
    case VInt(n) => n != 0
    case VOther(truthy) => truthy
  }

  /** The last `if` argument decides; `enabled` is the value so far. */
  function DeferEnabled(arguments: seq<Argument>, enabled: VarValue, variables: map<string, VarValue>): bool {
    if arguments == [] then Truthy(enabled)
    else if arguments[0].name == "if" then
      DeferEnabled(arguments[1..], BoolValue(arguments[0].value, variables), variables)
    else DeferEnabled(arguments[1..], enabled, variables)
  }

  predicate Deferred(directives: seq<Directive>, variables: map<string, VarValue>) {
    directives != []
    && (if directives[0].name == "defer" then DeferEnabled(directives[0].arguments, VBool(true), variables)
        else Deferred(directives[1..], variables))
  }

  // ----- type conditions --------------------------------------------------------

  predicate FragmentApplies(env: Env, condition: string, runtimeType: string)
    requires condition in env.types
  {
    condition == runtimeType ||
    match env.types[condition]
    case InterfaceType(_) =>
      runtimeType in env.types && env.types[runtimeType].ObjectType?
      && condition in env.types[runtimeType].interfaces
    case UnionType(members) => runtimeType in members
    case _ => false
  }

  predicate ConditionMatches(env: Env, condition: Option<string>, runtimeType: string) {
    condition.Some? ==> condition.value in env.types && FragmentApplies(env, condition.value, runtimeType)
  }

  // ----- one selection ------------------------------------------------------------

  /** An included field node. */
  predicate IsField(env: Env, s: Selection) {
    s.Field? && ShouldInclude(s.directives, env.variables)
  }

  /** An included fragment (spread or inline) whose type condition the runtime type meets. */
  predicate Expands(env: Env, runtimeType: string, s: Selection) {
    ShouldInclude(s.directives, env.variables) &&
    match s
    case Field(_, _, _, _, _) => false
    case InlineFragment(condition, _, _) => ConditionMatches(env, condition, runtimeType)
    case FragmentSpread(name, _) =>
      name in env.fragments && ConditionMatches(env, Some(env.fragments[name].condition), runtimeType)
  }

  /** The selections a fragment stands for. */
  function Body(env: Env, s: Selection): seq<Selection>
    requires s.InlineFragment? || (s.FragmentSpread? && s.name in env.fragments)
  {
    if s.InlineFragment? then s.selections else env.fragments[s.name].selections
  }

  /** A fragment set aside for a later payload. */
  predicate SetsAside(env: Env, s: Selection, incremental: bool) {
    incremental && Deferred(s.directives, env.variables)
  }

  // ----- the walk ------------------------------------------------------------------

  /** Field nodes in visiting order, fragments visited so far, deferred selection sets in order. */
  datatype Walked = Walked(nodes: seq<Selection>, visited: set<string>, deferred: seq<seq<Selection>>)

  function Walk(env: Env, runtimeType: string, ss: seq<Selection>, visited: set<string>, incremental: bool): (w: Walked)
    ensures visited <= w.visited
    ensures forall n <- w.nodes :: n.Field?
    decreases env.fragments.Keys - visited, ss
  {
    if ss == [] then Walked([], visited, [])
    else
      var h := WalkOne(env, runtimeType, ss[0], visited, incremental);
      var t := Walk(env, runtimeType, ss[1..], h.visited, incremental);
      Walked(h.nodes + t.nodes, t.visited, h.deferred + t.deferred)
  }

  function WalkOne(env: Env, runtimeType: string, s: Selection, visited: set<string>, incremental: bool): (w: Walked)
    ensures visited <= w.visited
    ensures forall n <- w.nodes :: n.Field?
    decreases env.fragments.Keys - visited, s
  {
    if IsField(env, s) then Walked([s], visited, [])
    else if !Expands(env, runtimeType, s) then Walked([], visited, [])
    else if SetsAside(env, s, incremental) then Walked([], visited, [Body(env, s)])
    else if s.InlineFragment? then Walk(env, runtimeType, s.selections, visited, incremental)
    else if s.name in visited then Walked([], visited, [])
    else Walk(env, runtimeType, Body(env, s), visited + {s.name}, incremental)
  }

  // ----- reachability -----------------------------------------------------------------

  /** `via` leads from `ss` through applicable fragments to the included field `n`. */
  ghost predicate Trail(env: Env, runtimeType: string, ss: seq<Selection>, via: seq<Selection>, n: Selection)
    decreases |via|
  {
    if via == [] then n in ss && IsField(env, n)
    else via[0] in ss && Expands(env, runtimeType, via[0])
         && Trail(env, runtimeType, Body(env, via[0]), via[1..], n)
  }

  /** Field `n` is selected by `ss` on `runtimeType`, directly or through fragments. */
  ghost predicate Reaches(env: Env, runtimeType: string, ss: seq<Selection>, n: Selection) {
    exists via :: Trail(env, runtimeType, ss, via, n)
  }

  lemma ReachesHere(env: Env, runtimeType: string, ss: seq<Selection>, n: Selection)
    requires n in ss && IsField(env, n)
    ensures Reaches(env, runtimeType, ss, n)
  {
    assert Trail(env, runtimeType, ss, [], n);
  }

  lemma ReachesThrough(env: Env, runtimeType: string, ss: seq<Selection>, s: Selection, n: Selection)
    requires s in ss && Expands(env, runtimeType, s) && Reaches(env, runtimeType, Body(env, s), n)
    ensures Reaches(env, runtimeType, ss, n)
  {
    var via :| Trail(env, runtimeType, Body(env, s), via, n);
    assert ([s] + via)[1..] == via;
    assert Trail(env, runtimeType, ss, [s] + via, n);
  }

  lemma ReachesMore(env: Env, runtimeType: string, ss: seq<Selection>, more: seq<Selection>, n: Selection)
    requires Reaches(env, runtimeType, ss, n)
    requires forall s <- ss :: s in more
    ensures Reaches(env, runtimeType, more, n)
  {
    var via :| Trail(env, runtimeType, ss, via, n);
    assert Trail(env, runtimeType, more, via, n);
  }

  // ----- soundness: nothing is collected that is not reachable -------------------------

  lemma {:induction false} WalkSound(env: Env, runtimeType: string, ss: seq<Selection>, visited: set<string>,
      incremental: bool)
    ensures var w := Walk(env, runtimeType, ss, visited, incremental);
            && (forall n <- w.nodes :: Reaches(env, runtimeType, ss, n))
            && (forall d <- w.deferred, n | Reaches(env, runtimeType, d, n) :: Reaches(env, runtimeType, ss, n))
    decreases env.fragments.Keys - visited, ss
  {
    if ss != [] {
      var h := WalkOne(env, runtimeType, ss[0], visited, incremental);
      var t := Walk(env, runtimeType, ss[1..], h.visited, incremental);
      var w := Walk(env, runtimeType, ss, visited, incremental);
      WalkOneSound(env, runtimeType, ss[0], visited, incremental);
      WalkSound(env, runtimeType, ss[1..], h.visited, incremental);
      forall n | Reaches(env, runtimeType, [ss[0]], n) ensures Reaches(env, runtimeType, ss, n) {
        ReachesMore(env, runtimeType, [ss[0]], ss, n);
      }
      forall n | Reaches(env, runtimeType, ss[1..], n) ensures Reaches(env, runtimeType, ss, n) {
        ReachesMore(env, runtimeType, ss[1..], ss, n);
      }
      forall d, n | d in w.deferred && Reaches(env, runtimeType, d, n) ensures Reaches(env, runtimeType, ss, n) {
        assert d in h.deferred || d in t.deferred;
      }
    }
  }

  lemma {:induction false} WalkOneSound(env: Env, runtimeType: string, s: Selection, visited: set<string>,
      incremental: bool)
    ensures var w := WalkOne(env, runtimeType, s, visited, incremental);
            && (forall n <- w.nodes :: Reaches(env, runtimeType, [s], n))
            && (forall d <- w.deferred, n | Reaches(env, runtimeType, d, n) :: Reaches(env, runtimeType, [s], n))
    decreases env.fragments.Keys - visited, s
  {
    if IsField(env, s) {
      ReachesHere(env, runtimeType, [s], s);
    } else if Expands(env, runtimeType, s) {
      forall n | Reaches(env, runtimeType, Body(env, s), n) ensures Reaches(env, runtimeType, [s], n) {
        ReachesThrough(env, runtimeType, [s], s, n);
      }
      if SetsAside(env, s, incremental) {
      } else if s.InlineFragment? {
        WalkSound(env, runtimeType, s.selections, visited, incremental);
      } else if s.name !in visited {
        WalkSound(env, runtimeType, Body(env, s), visited + {s.name}, incremental);
      }
    }
  }

  // ----- completeness -----------------------------------------------------------------

  /** Everything `ss` directly selects has been dealt with: fields are in `nodes`, spread names in
      `visited`, set-aside bodies in `deferred`. */
  ghost predicate Covered(env: Env, runtimeType: string, ss: seq<Selection>, w: Walked, incremental: bool) {
    forall s <- ss :: CoveredOne(env, runtimeType, s, w, incremental)
  }

  ghost predicate CoveredOne(env: Env, runtimeType: string, s: Selection, w: Walked, incremental: bool) {
    if IsField(env, s) then s in w.nodes
    else Expands(env, runtimeType, s) ==>
      if SetsAside(env, s, incremental) then Body(env, s) in w.deferred
      else if s.InlineFragment? then forall i <- s.selections :: CoveredOne(env, runtimeType, i, w, incremental)
      else s.name in w.visited
  }

  ghost predicate FragmentCovered(env: Env, runtimeType: string, name: string, w: Walked, incremental: bool) {
    name in env.fragments && Covered(env, runtimeType, env.fragments[name].selections, w, incremental)
  }

  ghost predicate Extends(w: Walked, more: Walked) {
    w.visited <= more.visited && (forall n <- w.nodes :: n in more.nodes)
        && (forall d <- w.deferred :: d in more.deferred)
  }

  lemma CoveredMore(env: Env, runtimeType: string, s: Selection, w: Walked, more: Walked, incremental: bool)
    requires CoveredOne(env, runtimeType, s, w, incremental) && Extends(w, more)
    ensures CoveredOne(env, runtimeType, s, more, incremental)
  {
    if s.InlineFragment? && Expands(env, runtimeType, s) && !SetsAside(env, s, incremental) {
      forall i <- s.selections ensures CoveredOne(env, runtimeType, i, more, incremental) {
        CoveredMore(env, runtimeType, i, w, more, incremental);
      }
    }
  }

  lemma FragmentsCoveredMore(env: Env, runtimeType: string, names: set<string>, w: Walked, more: Walked,
      incremental: bool)
    requires forall f <- names :: FragmentCovered(env, runtimeType, f, w, incremental)
    requires Extends(w, more)
    ensures forall f <- names :: FragmentCovered(env, runtimeType, f, more, incremental)
  {
    forall f <- names ensures FragmentCovered(env, runtimeType, f, more, incremental) {
      forall s <- env.fragments[f].selections ensures CoveredOne(env, runtimeType, s, more, incremental) {
        CoveredMore(env, runtimeType, s, w, more, incremental);
      }
    }
  }

  /** The walk covers its own selections and every fragment it newly visited. */
  lemma {:induction false} WalkCovers(env: Env, runtimeType: string, ss: seq<Selection>, visited: set<string>,
      incremental: bool)
    ensures var w := Walk(env, runtimeType, ss, visited, incremental);
            && Covered(env, runtimeType, ss, w, incremental)
            && forall f <- w.visited - visited :: FragmentCovered(env, runtimeType, f, w, incremental)
    decreases env.fragments.Keys - visited, ss
  {
    if ss != [] {
      var h := WalkOne(env, runtimeType, ss[0], visited, incremental);
      var t := Walk(env, runtimeType, ss[1..], h.visited, incremental);
      var w := Walk(env, runtimeType, ss, visited, incremental);
      WalkOneCovers(env, runtimeType, ss[0], visited, incremental);
      WalkCovers(env, runtimeType, ss[1..], h.visited, incremental);
      assert Extends(h, w) && Extends(t, w);
      CoveredMore(env, runtimeType, ss[0], h, w, incremental);
      forall s <- ss[1..] ensures CoveredOne(env, runtimeType, s, w, incremental) {
        CoveredMore(env, runtimeType, s, t, w, incremental);
      }
      assert forall s <- ss :: s == ss[0] || s in ss[1..];
      FragmentsCoveredMore(env, runtimeType, h.visited - visited, h, w, incremental);
      FragmentsCoveredMore(env, runtimeType, t.visited - h.visited, t, w, incremental);
    }
  }

  lemma {:induction false} WalkOneCovers(env: Env, runtimeType: string, s: Selection, visited: set<string>,
      incremental: bool)
    ensures var w := WalkOne(env, runtimeType, s, visited, incremental);
            && CoveredOne(env, runtimeType, s, w, incremental)
            && forall f <- w.visited - visited :: FragmentCovered(env, runtimeType, f, w, incremental)
    decreases env.fragments.Keys - visited, s
  {
    if !IsField(env, s) && Expands(env, runtimeType, s) && !SetsAside(env, s, incremental) {
      if s.InlineFragment? {
        WalkCovers(env, runtimeType, s.selections, visited, incremental);
      } else if s.name !in visited {
        WalkCovers(env, runtimeType, Body(env, s), visited + {s.name}, incremental);
      }
    }
  }

  lemma {:induction false} TrailCovered(env: Env, runtimeType: string, ss: seq<Selection>, via: seq<Selection>,
      n: Selection,
                     w: Walked, incremental: bool)
    requires Covered(env, runtimeType, ss, w, incremental)
    requires forall f <- w.visited :: FragmentCovered(env, runtimeType, f, w, incremental)
    requires Trail(env, runtimeType, ss, via, n)
    ensures n in w.nodes || exists d <- w.deferred :: Reaches(env, runtimeType, d, n)
    decreases |via|
  {
    if via != [] {
      var s := via[0];
      assert CoveredOne(env, runtimeType, s, w, incremental);
      if SetsAside(env, s, incremental) {
        assert Reaches(env, runtimeType, Body(env, s), n);
      } else {
        TrailCovered(env, runtimeType, Body(env, s), via[1..], n, w, incremental);
      }
    }
  }

  /** Without deferral, the collected nodes are exactly the fields reachable from the selection set. */
  lemma CollectsExactlyReachable(env: Env, runtimeType: string, ss: seq<Selection>, n: Selection)
    ensures n in Walk(env, runtimeType, ss, {}, false).nodes <==> Reaches(env, runtimeType, ss, n)
  {
    WalkSound(env, runtimeType, ss, {}, false);
    WalkCovers(env, runtimeType, ss, {}, false);
    NothingSetAside(env, runtimeType, ss, {});
    if Reaches(env, runtimeType, ss, n) {
      var via :| Trail(env, runtimeType, ss, via, n);
      TrailCovered(env, runtimeType, ss, via, n, Walk(env, runtimeType, ss, {}, false), false);
    }
  }

  lemma {:induction false} NothingSetAside(env: Env, runtimeType: string, ss: seq<Selection>, visited: set<string>)
    ensures Walk(env, runtimeType, ss, visited, false).deferred == []
    decreases env.fragments.Keys - visited, ss
  {
    if ss != [] {
      NothingSetAsideOne(env, runtimeType, ss[0], visited);
      NothingSetAside(env, runtimeType, ss[1..], WalkOne(env, runtimeType, ss[0], visited, false).visited);
    }
  }

  lemma {:induction false} NothingSetAsideOne(env: Env, runtimeType: string, s: Selection, visited: set<string>)
    ensures WalkOne(env, runtimeType, s, visited, false).deferred == []
    decreases env.fragments.Keys - visited, s
  {
    if !IsField(env, s) && Expands(env, runtimeType, s) {
      if s.InlineFragment? {
        NothingSetAside(env, runtimeType, s.selections, visited);
      } else if s.name !in visited {
        NothingSetAside(env, runtimeType, Body(env, s), visited + {s.name});
      }
    }
  }

  /** Deferral splits the reachable fields: each is collected now or reachable from a deferred
      fragment, and nothing else is. */
  lemma DeferralPartitionsReachable(env: Env, runtimeType: string, ss: seq<Selection>, n: Selection)
    ensures var w := Walk(env, runtimeType, ss, {}, true);
            Reaches(env, runtimeType, ss, n)
            <==> (n in w.nodes || exists d <- w.deferred :: Reaches(env, runtimeType, d, n))
  {
    var w := Walk(env, runtimeType, ss, {}, true);
    WalkSound(env, runtimeType, ss, {}, true);
    WalkCovers(env, runtimeType, ss, {}, true);
    if Reaches(env, runtimeType, ss, n) {
      var via :| Trail(env, runtimeType, ss, via, n);
      TrailCovered(env, runtimeType, ss, via, n, w, true);
    }
  }

  // ----- grouping by response key ----------------------------------------------------

  /** One entry of the ordered mapping from response key to field nodes. */
  datatype Group = Group(key: string, nodes: seq<Selection>)

  /** The position of `key` in the mapping, or its size when absent. */
  function IndexOf(groups: seq<Group>, key: string): (i: nat)
    ensures i <= |groups|
    ensures i < |groups| ==> groups[i].key == key
    ensures forall j | 0 <= j < i :: groups[j].key != key
  {
    if groups == [] || groups[0].key == key then 0 else 1 + IndexOf(groups[1..], key)
  }

  /** `groups.setdefault(key, []).extend(nodes)` on an ordered dictionary. */
  function Extend(groups: seq<Group>, key: string, nodes: seq<Selection>): seq<Group> {
    var i := IndexOf(groups, key);
    if i < |groups| then groups[i := Group(key, groups[i].nodes + nodes)] else groups + [Group(key, nodes)]
  }

  /** The mapping after appending `nodes` one by one. */
  function AddNodes(groups: seq<Group>, nodes: seq<Selection>): seq<Group>
    decreases |nodes|
  {
    if nodes == [] then groups
    else
      var last := nodes[|nodes| - 1];
      Extend(AddNodes(groups, nodes[..|nodes| - 1]), ResponseKey(last), [last])
  }

  /** The distinct response keys of `nodes`, in order of first occurrence. */
  function Keys(nodes: seq<Selection>): seq<string> {
    if nodes == [] then []
    else
      var before := Keys(nodes[..|nodes| - 1]);
      var key := ResponseKey(nodes[|nodes| - 1]);
      if key in before then before else before + [key]
  }

  /** The nodes of `nodes` whose response key is `key`, in order. */
  function Under(nodes: seq<Selection>, key: string): seq<Selection> {
    if nodes == [] then []
    else
      var last := nodes[|nodes| - 1];
      Under(nodes[..|nodes| - 1], key) + if ResponseKey(last) == key then [last] else []
  }

  lemma {:induction false} KeysExact(nodes: seq<Selection>)
    ensures forall i, j | 0 <= i < j < |Keys(nodes)| :: Keys(nodes)[i] != Keys(nodes)[j]
    ensures forall n <- nodes :: ResponseKey(n) in Keys(nodes)
    ensures forall k <- Keys(nodes) :: exists n <- nodes :: ResponseKey(n) == k
  {
    if nodes != [] {
      var front, last := nodes[..|nodes| - 1], nodes[|nodes| - 1];
      KeysExact(front);
      assert nodes == front + [last];
      forall k <- Keys(nodes) ensures exists n <- nodes :: ResponseKey(n) == k {
        if k in Keys(front) {
          var n :| n in front && ResponseKey(n) == k;
          assert n in nodes;
        } else {
          assert last in nodes && ResponseKey(last) == k;
        }
      }
    }
  }

  lemma {:induction false} UnderExact(nodes: seq<Selection>, key: string)
    ensures forall n :: n in Under(nodes, key) <==> n in nodes && ResponseKey(n) == key
    ensures key !in Keys(nodes) ==> Under(nodes, key) == []
  {
    if nodes != [] {
      assert nodes == nodes[..|nodes| - 1] + [nodes[|nodes| - 1]];
      UnderExact(nodes[..|nodes| - 1], key);
    }
  }

  lemma {:induction false} UnderConcat(a: seq<Selection>, b: seq<Selection>, key: string)
    ensures Under(a + b, key) == Under(a, key) + Under(b, key)
    decreases |b|
  {
    if b == [] {
      assert a + b == a;
    } else {
      assert (a + b)[..|a + b| - 1] == a + b[..|b| - 1];
      UnderConcat(a, b[..|b| - 1], key);
    }
  }

  lemma {:induction false} AddNodesConcat(groups: seq<Group>, a: seq<Selection>, b: seq<Selection>)
    ensures AddNodes(groups, a + b) == AddNodes(AddNodes(groups, a), b)
    decreases |b|
  {
    if b == [] {
      assert a + b == a;
    } else {
      assert (a + b)[..|a + b| - 1] == a + b[..|b| - 1];
      AddNodesConcat(groups, a, b[..|b| - 1]);
    }
  }

  ghost predicate HoldsGroups(groups: seq<Group>, nodes: seq<Selection>) {
    && |groups| == |Keys(nodes)|
    && forall i | 0 <= i < |groups| :: groups[i].key == Keys(nodes)[i] && groups[i].nodes == Under(nodes, groups[i].key)
  }

  /** Appending node by node yields one group per key, in first-occurrence order, holding exactly
      the nodes with that key in their original order. */
  lemma {:induction false} GroupsMeaning(nodes: seq<Selection>)
    ensures HoldsGroups(AddNodes([], nodes), nodes)
  {
    if nodes != [] {
      var front, last := nodes[..|nodes| - 1], nodes[|nodes| - 1];
      GroupsMeaning(front);
      ExtendHolds(AddNodes([], front), front, last);
      assert front + [last] == nodes;
    }
  }

  lemma ExtendHolds(before: seq<Group>, front: seq<Selection>, last: Selection)
    requires HoldsGroups(before, front)
    ensures HoldsGroups(Extend(before, ResponseKey(last), [last]), front + [last])
  {
    var key, nodes := ResponseKey(last), front + [last];
    var after := Extend(before, key, [last]);
    KeysExact(front);
    UnderExact(front, key);
    assert nodes[..|nodes| - 1] == front;
    assert forall j | 0 <= j < |before| :: Keys(front)[j] == before[j].key;
    forall m | 0 <= m < |after| ensures after[m].key == Keys(nodes)[m] && after[m].nodes == Under(nodes, after[m].key) {
      UnderLast(front, last, after[m].key);
    }
  }

  lemma UnderLast(front: seq<Selection>, last: Selection, key: string)
    ensures Under(front + [last], key) == Under(front, key) + if ResponseKey(last) == key then [last] else []
  {
    assert (front + [last])[..|front|] == front;
  }

  /** `collect_fields`: the ordered mapping for one selection set. */
  function CollectGroups(env: Env, runtimeType: string, ss: seq<Selection>): seq<Group> {
    AddNodes([], Walk(env, runtimeType, ss, {}, false).nodes)
  }

  /** Each group holds exactly the reachable fields with its key. */
  lemma GroupHoldsReachable(env: Env, runtimeType: string, ss: seq<Selection>, i: nat, n: Selection)
    requires i < |CollectGroups(env, runtimeType, ss)|
    ensures var group := CollectGroups(env, runtimeType, ss)[i];
            n in group.nodes <==> Reaches(env, runtimeType, ss, n) && ResponseKey(n) == group.key
  {
    var nodes := Walk(env, runtimeType, ss, {}, false).nodes;
    GroupsMeaning(nodes);
    UnderExact(nodes, CollectGroups(env, runtimeType, ss)[i].key);
    CollectsExactlyReachable(env, runtimeType, ss, n);
  }

  /** Every reachable field has a group, and no two groups share a key. */
  lemma GroupPerKey(env: Env, runtimeType: string, ss: seq<Selection>)
    ensures var groups := CollectGroups(env, runtimeType, ss);
            && (forall n | Reaches(env, runtimeType, ss, n) :: n.Field? && exists g <- groups ::
               g.key == ResponseKey(n))
            && (forall i, j | 0 <= i < j < |groups| :: groups[i].key != groups[j].key)
  {
    var nodes := Walk(env, runtimeType, ss, {}, false).nodes;
    var groups := CollectGroups(env, runtimeType, ss);
    GroupsMeaning(nodes);
    KeysExact(nodes);
    forall n | Reaches(env, runtimeType, ss, n) ensures n.Field? && exists g <- groups :: g.key == ResponseKey(n) {
      CollectsExactlyReachable(env, runtimeType, ss, n);
      var i :| 0 <= i < |Keys(nodes)| && Keys(nodes)[i] == ResponseKey(n);
      assert groups[i] in groups && groups[i].key == ResponseKey(n);
    }
  }

  /** The collector's fields at one moment. */
  datatype Collecting = Collecting(grouped: seq<Group>, visited: set<string>, deferred: seq<seq<Selection>>)

  function Gather(c: Collecting, w: Walked): Collecting {
    Collecting(AddNodes(c.grouped, w.nodes), w.visited, c.deferred + w.deferred)
  }

  function After(env: Env, runtimeType: string, ss: seq<Selection>, c: Collecting, incremental: bool): Collecting {
    Gather(c, Walk(env, runtimeType, ss, c.visited, incremental))
  }

  lemma AfterOne(env: Env, runtimeType: string, ss: seq<Selection>, i: nat, c: Collecting, incremental: bool)
    requires i < |ss|
    ensures After(env, runtimeType, ss[i..], c, incremental)
            == After(env, runtimeType, ss[i + 1..], Gather(c, WalkOne(env, runtimeType, ss[i], c.visited, incremental)),
                incremental)
  {
    var h := WalkOne(env, runtimeType, ss[i], c.visited, incremental);
    var t := Walk(env, runtimeType, ss[i + 1..], h.visited, incremental);
    assert ss[i..][0] == ss[i] && ss[i..][1..] == ss[i + 1..];
    AddNodesConcat(c.grouped, h.nodes, t.nodes);
    assert c.deferred + (h.deferred + t.deferred) == (c.deferred + h.deferred) + t.deferred;
  }

  // ----- the collector object --------------------------------------------------------

  /** The mutable state threaded through `_collect`: the mapping, the visited names, the deferred list. */
  class FieldCollector {
    var grouped: seq<Group>
    var visited: set<string>
    var deferred: seq<seq<Selection>>

    constructor ()
      ensures grouped == [] && visited == {} && deferred == []
    {
      grouped, visited, deferred := [], {}, [];
    }

    method Collect(env: Env, runtimeType: string, ss: seq<Selection>, incremental: bool)
      modifies this
      ensures Collecting(grouped, visited, deferred)
              == After(env, runtimeType, ss, old(Collecting(grouped, visited, deferred)), incremental)
      decreases env.fragments.Keys - visited, ss
    {
      ghost var goal := After(env, runtimeType, ss, Collecting(grouped, visited, deferred), incremental);
      assert ss[0..] == ss;
      for i := 0 to |ss|
        invariant old(visited) <= visited
        invariant After(env, runtimeType, ss[i..], Collecting(grouped, visited, deferred), incremental) == goal
      {
        AfterOne(env, runtimeType, ss, i, Collecting(grouped, visited, deferred), incremental);
        CollectOne(env, runtimeType, ss[i], incremental);
      }
      assert ss[|ss|..] == [];
    }

    method CollectOne(env: Env, runtimeType: string, s: Selection, incremental: bool)
      modifies this
      ensures Collecting(grouped, visited, deferred)
              == Gather(old(Collecting(grouped, visited, deferred)),
                  WalkOne(env, runtimeType, s, old(visited), incremental))
      decreases env.fragments.Keys - visited, s
    {
      if !ShouldInclude(s.directives, env.variables) { return; }
      match s
      case Field(_, _, _, _, _) =>
        assert [s][..|[s]| - 1] == [];
        assert deferred + [] == deferred;
        grouped := Extend(grouped, ResponseKey(s), [s]);
        assert grouped == AddNodes(old(grouped), [s]);
      case InlineFragment(condition, directives, selections) =>
        if !ConditionMatches(env, condition, runtimeType) { return; }
        if SetsAside(env, s, incremental) {
          deferred := deferred + [selections];
          return;
        }
        Collect(env, runtimeType, selections, incremental);
      case FragmentSpread(name, directives) =>
        if name !in env.fragments { return; }
        var fragment := env.fragments[name];
        if !ConditionMatches(env, Some(fragment.condition), runtimeType) { return; }
        if SetsAside(env, s, incremental) {
          deferred := deferred + [fragment.selections];
          return;
        }
        if name in visited { return; }
        visited := visited + {name};
        Collect(env, runtimeType, fragment.selections, incremental);
    }
  }

  // ----- each field node once -----------------------------------------------------------

  /** Where a field node stands in the document: in the operation's selection set or a fragment's
      (`home`), at the given indices through nested inline fragments. */
  datatype Occurrence = Occurrence(home: Option<string>, path: seq<nat>)

  datatype Tour = Tour(occurrences: seq<Occurrence>, visited: set<string>)

  /** The walk of `ss` from index `i`, recording where each collected node stands. */
  function WalkPlaces(env: Env, runtimeType: string, home: Option<string>, prefix: seq<nat>,
                      ss: seq<Selection>, i: nat, visited: set<string>): (t: Tour)
    requires i <= |ss|
    ensures visited <= t.visited
    decreases env.fragments.Keys - visited, ss, |ss| - i
  {
    if i == |ss| then Tour([], visited)
    else
      var h := WalkPlace(env, runtimeType, home, prefix, ss, i, visited);
      var t := WalkPlaces(env, runtimeType, home, prefix, ss, i + 1, h.visited);
      Tour(h.occurrences + t.occurrences, t.visited)
  }

  function WalkPlace(env: Env, runtimeType: string, home: Option<string>, prefix: seq<nat>,
                     ss: seq<Selection>, i: nat, visited: set<string>): (t: Tour)
    requires i < |ss|
    ensures visited <= t.visited
    decreases env.fragments.Keys - visited, ss, |ss| - i, 0
  {
    var s := ss[i];
    if IsField(env, s) then Tour([Occurrence(home, prefix + [i])], visited)
    else if !Expands(env, runtimeType, s) then Tour([], visited)
    else if s.InlineFragment? then WalkPlaces(env, runtimeType, home, prefix + [i], s.selections, 0, visited)
    else if s.name in visited then Tour([], visited)
    else WalkPlaces(env, runtimeType, Some(s.name), [], Body(env, s), 0, visited + {s.name})
  }

  /** The selection list found at `prefix` inside `ss`, going down through inline fragments. */
  function Inside(ss: seq<Selection>, prefix: seq<nat>): Option<seq<Selection>> {
    if prefix == [] then Some(ss)
    else
      var last := prefix[|prefix| - 1];
      match Inside(ss, prefix[..|prefix| - 1])
      case Some(inner) =>
        if last < |inner| && inner[last].InlineFragment? then Some(inner[last].selections) else None
      case None => None
  }

  function Home(env: Env, root: seq<Selection>, home: Option<string>): seq<Selection> {
    match home
    case None => root
    case Some(name) => if name in env.fragments then env.fragments[name].selections else []
  }

  ghost predicate StandsAt(env: Env, root: seq<Selection>, o: Occurrence, n: Selection) {
    o.path != [] &&
    var inner := Inside(Home(env, root, o.home), o.path[..|o.path| - 1]);
    inner.Some? && o.path[|o.path| - 1] < |inner.value| && inner.value[o.path[|o.path| - 1]] == n
  }

  ghost predicate StandAt(env: Env, root: seq<Selection>, os: seq<Occurrence>, ns: seq<Selection>) {
    |os| == |ns| && forall i | 0 <= i < |os| :: StandsAt(env, root, os[i], ns[i])
  }

  lemma StandAtConcat(env: Env, root: seq<Selection>, os: seq<Occurrence>, ns: seq<Selection>,
                      more: seq<Occurrence>, others: seq<Selection>)
    requires StandAt(env, root, os, ns) && StandAt(env, root, more, others)
    ensures StandAt(env, root, os + more, ns + others)
  {
  }

  lemma {:induction false} PlacesHoldNodes(env: Env, runtimeType: string, root: seq<Selection>, home: Option<string>,
                        prefix: seq<nat>, ss: seq<Selection>, i: nat, visited: set<string>)
    requires i <= |ss| && Inside(Home(env, root, home), prefix) == Some(ss)
    ensures var t := WalkPlaces(env, runtimeType, home, prefix, ss, i, visited);
            var w := Walk(env, runtimeType, ss[i..], visited, false);
            t.visited == w.visited && StandAt(env, root, t.occurrences, w.nodes)
    decreases env.fragments.Keys - visited, ss, |ss| - i
  {
    if i < |ss| {
      var h := WalkPlace(env, runtimeType, home, prefix, ss, i, visited);
      var t := WalkPlaces(env, runtimeType, home, prefix, ss, i + 1, h.visited);
      PlaceHoldsNodes(env, runtimeType, root, home, prefix, ss, i, visited);
      PlacesHoldNodes(env, runtimeType, root, home, prefix, ss, i + 1, h.visited);
      assert ss[i..][0] == ss[i] && ss[i..][1..] == ss[i + 1..];
      StandAtConcat(env, root, h.occurrences, WalkOne(env, runtimeType, ss[i], visited, false).nodes,
                    t.occurrences, Walk(env, runtimeType, ss[i + 1..], h.visited, false).nodes);
    }
  }

  lemma {:induction false} PlaceHoldsNodes(env: Env, runtimeType: string, root: seq<Selection>, home: Option<string>,
                        prefix: seq<nat>, ss: seq<Selection>, i: nat, visited: set<string>)
    requires i < |ss| && Inside(Home(env, root, home), prefix) == Some(ss)
    ensures var t := WalkPlace(env, runtimeType, home, prefix, ss, i, visited);
            var w := WalkOne(env, runtimeType, ss[i], visited, false);
            t.visited == w.visited && StandAt(env, root, t.occurrences, w.nodes)
    decreases env.fragments.Keys - visited, ss, |ss| - i, 0
  {
    var s := ss[i];
    InsideNext(Home(env, root, home), prefix, ss, i);
    if !IsField(env, s) && Expands(env, runtimeType, s) {
      if s.InlineFragment? {
        PlacesHoldNodes(env, runtimeType, root, home, prefix + [i], s.selections, 0, visited);
        assert s.selections[0..] == s.selections;
      } else if s.name !in visited {
        PlacesHoldNodes(env, runtimeType, root, Some(s.name), [], Body(env, s), 0, visited + {s.name});
        assert Body(env, s)[0..] == Body(env, s);
      }
    }
  }

  lemma InsideNext(container: seq<Selection>, prefix: seq<nat>, ss: seq<Selection>, i: nat)
    requires Inside(container, prefix) == Some(ss) && i < |ss|
    ensures (prefix + [i])[..|prefix + [i]| - 1] == prefix && (prefix + [i])[|prefix|] == i
    ensures ss[i].InlineFragment? ==> Inside(container, prefix + [i]) == Some(ss[i].selections)
  {
    assert (prefix + [i])[..|prefix + [i]| - 1] == prefix;
  }

  /** At or after index `i` of the list at `prefix` in `home`, or in a fragment of `newNames`. */
  ghost predicate Within(o: Occurrence, home: Option<string>, prefix: seq<nat>, i: nat, newNames: set<string>) {
    || (o.home == home && |prefix| < |o.path| && o.path[..|prefix|] == prefix && i <= o.path[|prefix|])
    || (o.home.Some? && o.home.value in newNames)
  }

  ghost predicate Distinct(os: seq<Occurrence>) {
    forall i, j | 0 <= i < j < |os| :: os[i] != os[j]
  }

  lemma DistinctConcat(a: seq<Occurrence>, b: seq<Occurrence>)
    requires Distinct(a) && Distinct(b) && forall o, p | o in a && p in b :: o != p
    ensures Distinct(a + b)
  {
    forall i, j | 0 <= i < j < |a + b| ensures (a + b)[i] != (a + b)[j] {
      if i < |a| <= j {
        assert a[i] in a && b[j - |a|] in b;
      }
    }
  }

  lemma {:induction false} PlacesDistinct(env: Env, runtimeType: string, home: Option<string>, prefix: seq<nat>,
                       ss: seq<Selection>, i: nat, visited: set<string>)
    requires i <= |ss| && (home.Some? ==> home.value in visited)
    ensures var t := WalkPlaces(env, runtimeType, home, prefix, ss, i, visited);
            && Distinct(t.occurrences)
            && forall o <- t.occurrences :: Within(o, home, prefix, i, t.visited - visited)
    decreases env.fragments.Keys - visited, ss, |ss| - i
  {
    if i < |ss| {
      var h := WalkPlace(env, runtimeType, home, prefix, ss, i, visited);
      var t := WalkPlaces(env, runtimeType, home, prefix, ss, i + 1, h.visited);
      PlaceDistinct(env, runtimeType, home, prefix, ss, i, visited);
      PlacesDistinct(env, runtimeType, home, prefix, ss, i + 1, h.visited);
      forall o, p | o in h.occurrences && p in t.occurrences ensures o != p {
        assert Within(p, home, prefix, i + 1, t.visited - h.visited);
        assert Within(o, home, prefix, i, h.visited - visited);
      }
      DistinctConcat(h.occurrences, t.occurrences);
    }
  }

  lemma {:induction false} PlaceDistinct(env: Env, runtimeType: string, home: Option<string>, prefix: seq<nat>,
                       ss: seq<Selection>, i: nat, visited: set<string>)
    requires i < |ss| && (home.Some? ==> home.value in visited)
    ensures var t := WalkPlace(env, runtimeType, home, prefix, ss, i, visited);
            && Distinct(t.occurrences)
            && forall o <- t.occurrences ::
                 && Within(o, home, prefix, i, t.visited - visited)
                 && (o.home == home ==> |prefix| < |o.path| && o.path[|prefix|] == i)
    decreases env.fragments.Keys - visited, ss, |ss| - i, 0
  {
    var s := ss[i];
    if !IsField(env, s) && Expands(env, runtimeType, s) {
      if s.InlineFragment? {
        PlacesDistinct(env, runtimeType, home, prefix + [i], s.selections, 0, visited);
        var t := WalkPlace(env, runtimeType, home, prefix, ss, i, visited);
        forall o <- t.occurrences
          ensures Within(o, home, prefix, i, t.visited - visited)
          ensures o.home == home ==> |prefix| < |o.path| && o.path[|prefix|] == i
        {
          if o.home == home {
            assert o.path[..|prefix| + 1] == prefix + [i];
            assert o.path[..|prefix| + 1][..|prefix|] == o.path[..|prefix|];
            assert o.path[..|prefix| + 1][|prefix|] == o.path[|prefix|];
          }
        }
      } else if s.name !in visited {
        PlacesDistinct(env, runtimeType, Some(s.name), [], Body(env, s), 0, visited + {s.name});
      }
    }
  }

  /** Collection takes each field node of the document at most once, however often a fragment is
      spread and whether or not fragments are cyclic. */
  lemma CollectsEachOnce(env: Env, runtimeType: string, root: seq<Selection>)
    ensures exists places: seq<Occurrence> ::
              Distinct(places) && StandAt(env, root, places, Walk(env, runtimeType, root, {}, false).nodes)
  {
    PlacesHoldNodes(env, runtimeType, root, None, [], root, 0, {});
    PlacesDistinct(env, runtimeType, None, [], root, 0, {});
    assert root[0..] == root;
    var places := WalkPlaces(env, runtimeType, None, [], root, 0, {}).occurrences;
    assert Distinct(places);
  }
}
