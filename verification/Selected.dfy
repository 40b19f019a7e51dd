/** Which fields a selection set selects, told from the document alone: what `@skip`, `@include` and
    `@defer` decide, which fragments count, and in what order fields are collected. */
module Selected {
  import opened Ast
  import opened Arguments
  import opened CollectFields
  import opened Executor

  // ----- which argument decides -------------------------------------------------------------

  /** Argument `j` of directive `i` is an `if` of a directive called `name`. */
  predicate IfAt(directives: seq<Directive>, name: string, i: nat, j: nat) {
    && i < |directives| && directives[i].name == name
    && j < |directives[i].arguments| && directives[i].arguments[j].name == "if"
  }

  /** The first of them in the order they are written. */
  ghost predicate FirstIf(directives: seq<Directive>, name: string, i: nat, j: nat) {
    && IfAt(directives, name, i, j)
    && forall k: nat, l: nat | IfAt(directives, name, k, l) :: i < k || (i == k && j <= l)
  }

  /** A literal denotes its truth, a variable that of its value; nothing else denotes one. */
  predicate Denotes(value: Value, variables: map<string, VarValue>, truth: bool) {
    || value == BooleanValue(truth)
    || (value.Variable? && value.name in variables && variables[value.name] == VBool(truth))
  }

  predicate DecidesAt(directives: seq<Directive>, i: nat, j: nat, truth: bool, variables: map<string, VarValue>) {
    i < |directives| && j < |directives[i].arguments| && Denotes(directives[i].arguments[j].value, variables, truth)
  }

  /** The first `if` of the directives called `name` denotes `truth`. */
  ghost predicate Decides(directives: seq<Directive>, name: string, truth: bool, variables: map<string, VarValue>) {
    exists i: nat, j: nat :: FirstIf(directives, name, i, j) && DecidesAt(directives, i, j, truth, variables)
  }

  /** Skipped, or not included. */
  ghost predicate LeftOut(directives: seq<Directive>, variables: map<string, VarValue>) {
    Decides(directives, "skip", true, variables) || Decides(directives, "include", false, variables)
  }

  lemma {:induction false} FirstIfFound(arguments: seq<Argument>) returns (j: nat)
    ensures if IfArgument(arguments).None? then forall a <- arguments :: a.name != "if"
            else && j < |arguments| && arguments[j] == Argument("if", IfArgument(arguments).value)
                 && forall l | 0 <= l < j :: arguments[l].name != "if"
  {
    j := 0;
    if arguments != [] && arguments[0].name != "if" {
      var k := FirstIfFound(arguments[1..]);
      j := k + 1;
      assert forall l | 0 < l < |arguments| :: arguments[l] == arguments[1..][l - 1];
    }
  }

  lemma {:induction false} DirectiveIfDecides(directives: seq<Directive>, name: string, truth: bool,
      variables: map<string, VarValue>)
    ensures DirectiveIf(directives, name, variables) == VBool(truth) <==> Decides(directives, name, truth, variables)
  {
    if directives != [] {
      var rest := directives[1..];
      DirectiveIfDecides(rest, name, truth, variables);
      var j := FirstIfFound(directives[0].arguments);
      assert forall k: nat, l: nat | IfAt(rest, name, k, l) :: IfAt(directives, name, k + 1, l);
      assert forall k: nat, l: nat | IfAt(directives, name, k, l) && k > 0 :: IfAt(rest, name, k - 1, l);
      if directives[0].name == name && IfArgument(directives[0].arguments).Some? {
        assert FirstIf(directives, name, 0, j);
      } else {
        assert forall l: nat :: !IfAt(directives, name, 0, l);
        if k: nat, l: nat :| FirstIf(rest, name, k, l) && DecidesAt(rest, k, l, truth, variables) {
          assert FirstIf(directives, name, k + 1, l) && DecidesAt(directives, k + 1, l, truth, variables);
        }
        if k: nat, l: nat :| FirstIf(directives, name, k, l) && DecidesAt(directives, k, l, truth, variables) {
          assert FirstIf(rest, name, k - 1, l) && DecidesAt(rest, k - 1, l, truth, variables);
        }
      }
    }
  }

  /** A selection is left out exactly when the first `if` of its `skip` directives denotes true, or that of its
      `include` directives denotes false. */
  lemma IncludedExactly(directives: seq<Directive>, variables: map<string, VarValue>)
    ensures ShouldInclude(directives, variables) <==> !LeftOut(directives, variables)
  {
    DirectiveIfDecides(directives, "skip", true, variables);
    DirectiveIfDecides(directives, "include", false, variables);
  }

  // ----- which fragments are put off ------------------------------------------------------------

  /** A condition counts as true. */
  predicate Counts(value: Value, variables: map<string, VarValue>) {
    || value == BooleanValue(true)
    || (value.Variable? && value.name in variables
        && var v := variables[value.name]; v == VBool(true) || v == VOther(true) || (v.VInt? && v.n != 0))
  }

  predicate FirstCalled(directives: seq<Directive>, name: string, i: nat) {
    i < |directives| && directives[i].name == name && forall k | 0 <= k < i :: directives[k].name != name
  }

  ghost predicate PutsOffAt(directives: seq<Directive>, i: nat, variables: map<string, VarValue>) {
    && FirstCalled(directives, "defer", i)
    && forall j: nat | LastCalled(directives[i].arguments, "if", j) ::
         Counts(directives[i].arguments[j].value, variables)
  }

  /** There is a `defer` directive, and the last `if` argument of the first one, if it has any, counts as true. */
  ghost predicate PutOff(directives: seq<Directive>, variables: map<string, VarValue>) {
    exists i: nat :: PutsOffAt(directives, i, variables)
  }

  lemma {:induction false} LastIfDecides(arguments: seq<Argument>, enabled: VarValue, variables: map<string, VarValue>)
    ensures DeferEnabled(arguments, enabled, variables)
            <==> if forall a <- arguments :: a.name != "if" then Truthy(enabled)
                 else forall j: nat | LastCalled(arguments, "if", j) :: Counts(arguments[j].value, variables)
  {
    if arguments != [] {
      var rest := arguments[1..];
      assert forall a <- arguments :: a == arguments[0] || a in rest;
      assert forall l | 0 < l < |arguments| :: arguments[l] == rest[l - 1];
      LastIfDecides(rest, if arguments[0].name == "if" then BoolValue(arguments[0].value, variables) else enabled,
        variables);
      assert forall j: nat | LastCalled(rest, "if", j) :: LastCalled(arguments, "if", j + 1);
      assert forall j: nat | LastCalled(arguments, "if", j) && j > 0 :: LastCalled(rest, "if", j - 1);
      if exists a <- rest :: a.name == "if" {
        assert !LastCalled(arguments, "if", 0);
      } else {
        assert arguments[0].name == "if" ==> LastCalled(arguments, "if", 0);
      }
    }
  }

  /** A fragment is deferred exactly when it has a `defer` directive whose last `if` counts as true or is missing. */
  lemma {:induction false} DeferredExactly(directives: seq<Directive>, variables: map<string, VarValue>)
    ensures Deferred(directives, variables) <==> PutOff(directives, variables)
  {
    if directives != [] {
      if directives[0].name == "defer" {
        var arguments := directives[0].arguments;
        LastIfDecides(arguments, VBool(true), variables);
        assert (forall a <- arguments :: a.name != "if") ==> forall j: nat :: !LastCalled(arguments, "if", j);
        assert Deferred(directives, variables) <==> PutsOffAt(directives, 0, variables);
      } else {
        var rest := directives[1..];
        DeferredExactly(rest, variables);
        assert forall k | 0 < k < |directives| :: directives[k] == rest[k - 1];
        if i: nat :| PutsOffAt(rest, i, variables) { assert PutsOffAt(directives, i + 1, variables); }
        if i: nat :| PutsOffAt(directives, i, variables) { assert PutsOffAt(rest, i - 1, variables); }
      }
    }
  }

  // ----- which fragments count --------------------------------------------------------------------

  /** The type `condition` is `runtimeType`, an interface it implements, or a union it is a member of. */
  predicate TakesIn(env: Env, condition: string, runtimeType: string) {
    && condition in env.types
    && (|| condition == runtimeType
        || (env.types[condition].UnionType? && runtimeType in env.types[condition].members)
        || (env.types[condition].InterfaceType? && runtimeType in env.types && env.types[runtimeType].ObjectType?
            && condition in env.types[runtimeType].interfaces))
  }

  /** `s` is a fragment that is not left out, takes objects of type `runtimeType` in, and holds `body`. */
  ghost predicate Holds(env: Env, runtimeType: string, s: Selection, body: seq<Selection>) {
    !LeftOut(s.directives, env.variables) &&
    match s
    case Field(_, _, _, _, _) => false
    case InlineFragment(condition, _, selections) =>
      body == selections && (condition.None? || TakesIn(env, condition.value, runtimeType))
    case FragmentSpread(name, _) =>
      name in env.fragments && env.fragments[name].selections == body
      && TakesIn(env, env.fragments[name].condition, runtimeType)
  }

  lemma HoldsExactly(env: Env, runtimeType: string, s: Selection, body: seq<Selection>)
    ensures Holds(env, runtimeType, s, body) <==> Expands(env, runtimeType, s) && body == Body(env, s)
  {
    IncludedExactly(s.directives, env.variables);
  }

  // ----- which fields are selected --------------------------------------------------------------

  /** Going from `ss` into the fragments of `via`, none of them put off, one comes to `s`. */
  ghost predicate LeadsTo(env: Env, runtimeType: string, ss: seq<Selection>, via: seq<Selection>, s: Selection,
      incremental: bool)
    decreases |via|
  {
    if via == [] then s in ss
    else && via[0] in ss && !(incremental && PutOff(via[0].directives, env.variables))
         && exists body :: Holds(env, runtimeType, via[0], body)
                           && LeadsTo(env, runtimeType, body, via[1..], s, incremental)
  }

  ghost predicate Meets(env: Env, runtimeType: string, ss: seq<Selection>, s: Selection, incremental: bool) {
    exists via :: LeadsTo(env, runtimeType, ss, via, s, incremental)
  }

  lemma MeetsHere(env: Env, runtimeType: string, ss: seq<Selection>, s: Selection, incremental: bool)
    requires s in ss
    ensures Meets(env, runtimeType, ss, s, incremental)
  {
    assert LeadsTo(env, runtimeType, ss, [], s, incremental);
  }

  lemma MeetsThrough(env: Env, runtimeType: string, ss: seq<Selection>, f: Selection, s: Selection, incremental: bool)
    requires f in ss && Expands(env, runtimeType, f) && !SetsAside(env, f, incremental)
    requires Meets(env, runtimeType, Body(env, f), s, incremental)
    ensures Meets(env, runtimeType, ss, s, incremental)
  {
    var via :| LeadsTo(env, runtimeType, Body(env, f), via, s, incremental);
    HoldsExactly(env, runtimeType, f, Body(env, f));
    DeferredExactly(f.directives, env.variables);
    assert ([f] + via)[1..] == via;
    assert LeadsTo(env, runtimeType, ss, [f] + via, s, incremental);
  }

  lemma MeetsMore(env: Env, runtimeType: string, ss: seq<Selection>, more: seq<Selection>, s: Selection,
      incremental: bool)
    requires Meets(env, runtimeType, ss, s, incremental) && forall f <- ss :: f in more
    ensures Meets(env, runtimeType, more, s, incremental)
  {
    var via :| LeadsTo(env, runtimeType, ss, via, s, incremental);
    assert LeadsTo(env, runtimeType, more, via, s, incremental);
  }

  /** `s` is a fragment to be put off that holds `body`. */
  ghost predicate PutsAside(env: Env, runtimeType: string, s: Selection, body: seq<Selection>, incremental: bool) {
    incremental && PutOff(s.directives, env.variables) && Holds(env, runtimeType, s, body)
  }

  /** `ss` selects the field `n` now. */
  ghost predicate SelectsNow(env: Env, runtimeType: string, ss: seq<Selection>, n: Selection, incremental: bool) {
    n.Field? && !LeftOut(n.directives, env.variables) && Meets(env, runtimeType, ss, n, incremental)
  }

  /** `ss` leads to a fragment put off that holds `body`. */
  ghost predicate Defers(env: Env, runtimeType: string, ss: seq<Selection>, body: seq<Selection>, incremental: bool) {
    exists s :: PutsAside(env, runtimeType, s, body, incremental) && Meets(env, runtimeType, ss, s, incremental)
  }

  ghost predicate AllMet(env: Env, runtimeType: string, ss: seq<Selection>, w: Walked, incremental: bool) {
    && (forall n <- w.nodes :: SelectsNow(env, runtimeType, ss, n, incremental))
    && forall d <- w.deferred :: Defers(env, runtimeType, ss, d, incremental)
  }

  lemma AllMetMore(env: Env, runtimeType: string, ss: seq<Selection>, more: seq<Selection>, w: Walked,
      incremental: bool)
    requires AllMet(env, runtimeType, ss, w, incremental) && forall f <- ss :: f in more
    ensures AllMet(env, runtimeType, more, w, incremental)
  {
    forall n <- w.nodes ensures SelectsNow(env, runtimeType, more, n, incremental) {
      MeetsMore(env, runtimeType, ss, more, n, incremental);
    }
    forall d <- w.deferred ensures Defers(env, runtimeType, more, d, incremental) {
      var s :| PutsAside(env, runtimeType, s, d, incremental) && Meets(env, runtimeType, ss, s, incremental);
      MeetsMore(env, runtimeType, ss, more, s, incremental);
    }
  }

  lemma AllMetThrough(env: Env, runtimeType: string, f: Selection, w: Walked, incremental: bool)
    requires Expands(env, runtimeType, f) && !SetsAside(env, f, incremental)
    requires AllMet(env, runtimeType, Body(env, f), w, incremental)
    ensures AllMet(env, runtimeType, [f], w, incremental)
  {
    forall n <- w.nodes ensures SelectsNow(env, runtimeType, [f], n, incremental) {
      MeetsThrough(env, runtimeType, [f], f, n, incremental);
    }
    forall d <- w.deferred ensures Defers(env, runtimeType, [f], d, incremental) {
      var s :| PutsAside(env, runtimeType, s, d, incremental) && Meets(env, runtimeType, Body(env, f), s, incremental);
      MeetsThrough(env, runtimeType, [f], f, s, incremental);
    }
  }

  lemma {:induction false} WalkMeets(env: Env, runtimeType: string, ss: seq<Selection>, visited: set<string>,
      incremental: bool)
    ensures AllMet(env, runtimeType, ss, Walk(env, runtimeType, ss, visited, incremental), incremental)
    decreases env.fragments.Keys - visited, ss
  {
    if ss != [] {
      var h := WalkOne(env, runtimeType, ss[0], visited, incremental);
      var t := Walk(env, runtimeType, ss[1..], h.visited, incremental);
      WalkOneMeets(env, runtimeType, ss[0], visited, incremental);
      WalkMeets(env, runtimeType, ss[1..], h.visited, incremental);
      AllMetMore(env, runtimeType, [ss[0]], ss, h, incremental);
      AllMetMore(env, runtimeType, ss[1..], ss, t, incremental);
    }
  }

  lemma {:induction false} WalkOneMeets(env: Env, runtimeType: string, s: Selection, visited: set<string>,
      incremental: bool)
    ensures AllMet(env, runtimeType, [s], WalkOne(env, runtimeType, s, visited, incremental), incremental)
    decreases env.fragments.Keys - visited, s
  {
    IncludedExactly(s.directives, env.variables);
    DeferredExactly(s.directives, env.variables);
    if IsField(env, s) {
      MeetsHere(env, runtimeType, [s], s, incremental);
    } else if Expands(env, runtimeType, s) {
      if SetsAside(env, s, incremental) {
        HoldsExactly(env, runtimeType, s, Body(env, s));
        MeetsHere(env, runtimeType, [s], s, incremental);
      } else if s.InlineFragment? {
        WalkMeets(env, runtimeType, s.selections, visited, incremental);
        AllMetThrough(env, runtimeType, s, Walk(env, runtimeType, s.selections, visited, incremental), incremental);
      } else if s.name !in visited {
        WalkMeets(env, runtimeType, Body(env, s), visited + {s.name}, incremental);
        AllMetThrough(env, runtimeType, s, Walk(env, runtimeType, Body(env, s), visited + {s.name}, incremental),
          incremental);
      }
    }
  }

  /** Whatever the selections lead to has been dealt with. */
  lemma {:induction false} LeadsToCovered(env: Env, runtimeType: string, ss: seq<Selection>, via: seq<Selection>,
      s: Selection, w: Walked, incremental: bool)
    requires Covered(env, runtimeType, ss, w, incremental)
    requires forall f <- w.visited :: FragmentCovered(env, runtimeType, f, w, incremental)
    requires LeadsTo(env, runtimeType, ss, via, s, incremental)
    ensures CoveredOne(env, runtimeType, s, w, incremental)
    decreases |via|
  {
    if via != [] {
      var f := via[0];
      assert CoveredOne(env, runtimeType, f, w, incremental);
      DeferredExactly(f.directives, env.variables);
      var body :| Holds(env, runtimeType, f, body) && LeadsTo(env, runtimeType, body, via[1..], s, incremental);
      HoldsExactly(env, runtimeType, f, body);
      LeadsToCovered(env, runtimeType, body, via[1..], s, w, incremental);
    }
  }

  /** A field is collected exactly when it is not left out and the selection set leads to it through fragments
      that count, of which none is deferred. */
  lemma CollectedExactly(env: Env, runtimeType: string, ss: seq<Selection>, n: Selection, incremental: bool)
    ensures n in Walk(env, runtimeType, ss, {}, incremental).nodes <==> SelectsNow(env, runtimeType, ss, n, incremental)
  {
    var w := Walk(env, runtimeType, ss, {}, incremental);
    WalkMeets(env, runtimeType, ss, {}, incremental);
    WalkCovers(env, runtimeType, ss, {}, incremental);
    if SelectsNow(env, runtimeType, ss, n, incremental) {
      var via :| LeadsTo(env, runtimeType, ss, via, n, incremental);
      LeadsToCovered(env, runtimeType, ss, via, n, w, incremental);
      IncludedExactly(n.directives, env.variables);
    }
  }

  /** A selection list is set aside exactly when the selection set leads to a deferred fragment holding it. */
  lemma SetAsideExactly(env: Env, runtimeType: string, ss: seq<Selection>, body: seq<Selection>, incremental: bool)
    ensures body in Walk(env, runtimeType, ss, {}, incremental).deferred
            <==> Defers(env, runtimeType, ss, body, incremental)
  {
    var w := Walk(env, runtimeType, ss, {}, incremental);
    WalkMeets(env, runtimeType, ss, {}, incremental);
    WalkCovers(env, runtimeType, ss, {}, incremental);
    if s :| PutsAside(env, runtimeType, s, body, incremental) && Meets(env, runtimeType, ss, s, incremental) {
      var via :| LeadsTo(env, runtimeType, ss, via, s, incremental);
      LeadsToCovered(env, runtimeType, ss, via, s, w, incremental);
      HoldsExactly(env, runtimeType, s, body);
      DeferredExactly(s.directives, env.variables);
    }
  }

  // ----- which lists are streamed, from where -----------------------------------------------------

  /** Argument `j` is the last one of its kind. */
  predicate LastOf(arguments: seq<Argument>, kind: Argument -> bool, j: nat) {
    j < |arguments| && kind(arguments[j]) && forall l | j < l < |arguments| :: !kind(arguments[l])
  }

  predicate SaysWhether(a: Argument) { a.name == "if" && (a.value.Variable? || a.value.BooleanValue?) }

  predicate SaysHowMany(a: Argument) { a.name == "initialCount" && (a.value.Variable? || a.value.IntValue?) }

  /** A count: the number written, or a variable's integer, one or zero for its truth, zero for anything else. */
  predicate CountIs(value: Value, variables: map<string, VarValue>, n: int) {
    if value.IntValue? then n == LexemeInt(value.lexeme)
    else if value.Variable? && value.name in variables && variables[value.name].VInt? then
      VInt(n) == variables[value.name]
    else n == if Denotes(value, variables, true) then 1 else 0
  }

  ghost predicate AsksToStream(arguments: seq<Argument>, variables: map<string, VarValue>) {
    forall j: nat | LastOf(arguments, SaysWhether, j) :: Counts(arguments[j].value, variables)
  }

  ghost predicate AsksForFirst(arguments: seq<Argument>, variables: map<string, VarValue>, n: int) {
    && (forall j: nat | LastOf(arguments, SaysHowMany, j) :: CountIs(arguments[j].value, variables, n))
    && ((forall a <- arguments :: !SaysHowMany(a)) ==> n == 0)
  }

  ghost predicate StreamsAt(directives: seq<Directive>, i: nat, variables: map<string, VarValue>, n: int) {
    && FirstCalled(directives, "stream", i)
    && AsksToStream(directives[i].arguments, variables) && AsksForFirst(directives[i].arguments, variables, n)
  }

  lemma LastOfTail(arguments: seq<Argument>, kind: Argument -> bool)
    requires arguments != []
    ensures forall j: nat | j > 0 :: LastOf(arguments, kind, j) <==> LastOf(arguments[1..], kind, j - 1)
    ensures LastOf(arguments, kind, 0) <==> kind(arguments[0]) && forall a <- arguments[1..] :: !kind(a)
  {
    var rest := arguments[1..];
    assert forall l | 0 < l < |arguments| :: arguments[l] == rest[l - 1];
    assert forall l | 0 <= l < |rest| :: rest[l] == arguments[l + 1];
  }

  lemma {:induction false} EnabledExactly(arguments: seq<Argument>, enabled: bool, variables: map<string, VarValue>)
    ensures StreamEnabled(arguments, enabled, variables)
            <==> if exists a <- arguments :: SaysWhether(a) then AsksToStream(arguments, variables) else enabled
  {
    if arguments != [] {
      var first, rest := arguments[0], arguments[1..];
      assert forall a <- arguments :: a == first || a in rest;
      LastOfTail(arguments, SaysWhether);
      assert forall j: nat :: LastOf(rest, SaysWhether, j) ==> LastOf(arguments, SaysWhether, j + 1);
      EnabledExactly(rest, if SaysWhether(first) then Truthy(BoolValue(first.value, variables))
          else enabled, variables);
    }
  }

  /** What a count argument says, put in numbers. */
  function Said(a: Argument, variables: map<string, VarValue>): int
    requires SaysHowMany(a)
  {
    if a.value.IntValue? then LexemeInt(a.value.lexeme)
    else VarCount(if a.value.name in variables then variables[a.value.name] else VNull)
  }

  lemma SaidExactly(a: Argument, variables: map<string, VarValue>, n: int)
    requires SaysHowMany(a)
    ensures CountIs(a.value, variables, n) <==> n == Said(a, variables)
  {
  }

  lemma CountStep(arguments: seq<Argument>, count: int, variables: map<string, VarValue>)
    requires arguments != []
    ensures InitialCount(arguments, count, variables)
            == InitialCount(arguments[1..], if SaysHowMany(arguments[0]) then Said(arguments[0], variables) else count,
                variables)
  {
  }

  lemma {:induction false} CountExactly(arguments: seq<Argument>, count: int, variables: map<string, VarValue>, n: int)
    ensures InitialCount(arguments, count, variables) == n
            <==> if exists a <- arguments :: SaysHowMany(a) then AsksForFirst(arguments, variables, n) else n == count
  {
    if arguments != [] {
      var first, rest := arguments[0], arguments[1..];
      assert forall a <- arguments :: a == first || a in rest;
      LastOfTail(arguments, SaysHowMany);
      assert forall j: nat :: LastOf(rest, SaysHowMany, j) ==> LastOf(arguments, SaysHowMany, j + 1);
      CountStep(arguments, count, variables);
      CountExactly(rest, if SaysHowMany(first) then Said(first, variables) else count, variables, n);
      if SaysHowMany(first) { SaidExactly(first, variables, n); }
    }
  }

  lemma ArgumentsExactly(arguments: seq<Argument>, variables: map<string, VarValue>, n: int)
    ensures StreamEnabled(arguments, true, variables) <==> AsksToStream(arguments, variables)
    ensures InitialCount(arguments, 0, variables) == n <==> AsksForFirst(arguments, variables, n)
  {
    EnabledExactly(arguments, true, variables);
    CountExactly(arguments, 0, variables, n);
  }

  ghost predicate Streams(directives: seq<Directive>, variables: map<string, VarValue>, n: int) {
    exists i: nat :: StreamsAt(directives, i, variables, n)
  }

  lemma StreamsHere(directives: seq<Directive>, variables: map<string, VarValue>, n: int)
    requires directives != [] && directives[0].name == "stream"
    ensures Streams(directives, variables, n)
            <==> AsksToStream(directives[0].arguments, variables) && AsksForFirst(directives[0].arguments, variables, n)
  {
    assert FirstCalled(directives, "stream", 0);
    if i: nat :| StreamsAt(directives, i, variables, n) { assert i == 0; }
    if AsksToStream(directives[0].arguments, variables) && AsksForFirst(directives[0].arguments, variables, n) {
      assert StreamsAt(directives, 0, variables, n);
    }
  }

  lemma StreamsLater(directives: seq<Directive>, variables: map<string, VarValue>, n: int)
    requires directives != [] && directives[0].name != "stream"
    ensures Streams(directives, variables, n) <==> Streams(directives[1..], variables, n)
  {
    var rest := directives[1..];
    assert forall k | 0 < k < |directives| :: directives[k] == rest[k - 1];
    if i: nat :| StreamsAt(rest, i, variables, n) { assert StreamsAt(directives, i + 1, variables, n); }
    if i: nat :| StreamsAt(directives, i, variables, n) { assert StreamsAt(rest, i - 1, variables, n); }
  }

  /** A list is streamed after its first `n` items exactly when the first `stream` directive is not switched off by
      its last `if` and its last `initialCount` says `n`, or none does and `n` is zero. */
  lemma {:induction false} StreamedExactly(x: Exec, directives: seq<Directive>, n: int)
    ensures StreamCount(x, directives) == Some(n) <==> Streams(directives, x.env.variables, n)
  {
    if directives != [] {
      if directives[0].name == "stream" {
        ArgumentsExactly(directives[0].arguments, x.env.variables, n);
        StreamsHere(directives, x.env.variables, n);
      } else {
        StreamedExactly(x, directives[1..], n);
        StreamsLater(directives, x.env.variables, n);
      }
    }
  }

  /** An item is delivered at once exactly when its list is not streamed, or streamed from further on. */
  lemma AtOnceExactly(x: Exec, node: Selection, items: seq<PyValue>, i: nat)
    requires node.Field? && i < |items|
    ensures i < Initial(x, node, items) <==> forall n: int | Streams(node.directives, x.env.variables, n) :: i < n
  {
    var count := StreamCount(x, node.directives);
    if count.Some? { StreamedExactly(x, node.directives, count.value); }
    forall n: int | Streams(node.directives, x.env.variables, n) ensures count == Some(n) {
      StreamedExactly(x, node.directives, n);
    }
  }

  // ----- in which order ---------------------------------------------------------------------------

  lemma BodySize(env: Env, weight: map<string, nat>, runtimeType: string, s: Selection)
    requires Bounds(env.fragments, weight) && Expands(env, runtimeType, s)
    ensures Size(Body(env, s), weight) < SizeOne(s, weight)
  {
  }

  /** The fields met when every fragment that is not put off is written out wherever it is spread. */
  function WrittenOut(env: Env, weight: map<string, nat>, runtimeType: string, ss: seq<Selection>,
      incremental: bool): seq<Selection>
    requires Bounds(env.fragments, weight)
    decreases Size(ss, weight), 1, |ss|
  {
    if ss == [] then []
    else
      WrittenOne(env, weight, runtimeType, ss[0], incremental)
      + WrittenOut(env, weight, runtimeType, ss[1..], incremental)
  }

  function WrittenOne(env: Env, weight: map<string, nat>, runtimeType: string, s: Selection,
      incremental: bool): seq<Selection>
    requires Bounds(env.fragments, weight)
    decreases SizeOne(s, weight), 0
  {
    if IsField(env, s) then [s]
    else if Expands(env, runtimeType, s) && !SetsAside(env, s, incremental) then
      BodySize(env, weight, runtimeType, s);
      WrittenOut(env, weight, runtimeType, Body(env, s), incremental)
    else []
  }

  /** Each element once, where it comes first. */
  function Firsts(ns: seq<Selection>): seq<Selection>
    decreases |ns|
  {
    if ns == [] then []
    else
      var front, last := ns[..|ns| - 1], ns[|ns| - 1];
      if last in front then Firsts(front) else Firsts(front) + [last]
  }

  lemma {:induction false} FirstsAreAll(ns: seq<Selection>, n: Selection)
    ensures n in Firsts(ns) <==> n in ns
    decreases |ns|
  {
    if ns != [] {
      assert ns == ns[..|ns| - 1] + [ns[|ns| - 1]];
      FirstsAreAll(ns[..|ns| - 1], n);
    }
  }

  lemma {:induction false} FirstsGoOn(a: seq<Selection>, b: seq<Selection>, more: seq<Selection>)
    requires Firsts(a) == Firsts(b)
    ensures Firsts(a + more) == Firsts(b + more)
    decreases |more|
  {
    if more == [] {
      assert a + more == a && b + more == b;
    } else {
      var front, last := more[..|more| - 1], more[|more| - 1];
      FirstsGoOn(a, b, front);
      FirstsAreAll(a + front, last);
      FirstsAreAll(b + front, last);
      assert (a + more)[..|a + more| - 1] == a + front && (b + more)[..|b + more| - 1] == b + front;
    }
  }

  lemma {:induction false} FirstsStay(a: seq<Selection>, more: seq<Selection>)
    requires forall n <- more :: n in a
    ensures Firsts(a + more) == Firsts(a)
    decreases |more|
  {
    if more == [] {
      assert a + more == a;
    } else {
      FirstsStay(a, more[..|more| - 1]);
      assert (a + more)[..|a + more| - 1] == a + more[..|more| - 1];
    }
  }

  /** All that fragment `f` leads to stands in `ns`. */
  ghost predicate Told(env: Env, weight: map<string, nat>, runtimeType: string, f: string, ns: seq<Selection>,
      incremental: bool)
    requires Bounds(env.fragments, weight)
  {
    f in env.fragments
    && forall n <- WrittenOut(env, weight, runtimeType, env.fragments[f].selections, incremental) :: n in ns
  }

  /** The fragments in `visited` that selections of the given size can spread are told in `before`. */
  ghost predicate AllTold(env: Env, weight: map<string, nat>, runtimeType: string, visited: set<string>, size: nat,
      before: seq<Selection>, incremental: bool)
    requires Bounds(env.fragments, weight)
  {
    forall f <- visited | f in env.fragments && weight[f] < size ::
      Told(env, weight, runtimeType, f, before, incremental)
  }

  lemma Regroup(a: seq<Selection>, b: seq<Selection>, c: seq<Selection>)
    ensures a + (b + c) == a + b + c
  {
  }

  lemma FirstsInTurn(before: seq<Selection>, a: seq<Selection>, b: seq<Selection>, here: seq<Selection>,
      later: seq<Selection>)
    requires Firsts(before + a) == Firsts(before + here)
    requires Firsts(before + a + b) == Firsts(before + a + later)
    ensures Firsts(before + (a + b)) == Firsts(before + (here + later))
  {
    FirstsGoOn(before + a, before + here, later);
    Regroup(before, a, b);
    Regroup(before, here, later);
  }

  ghost predicate NewTold(env: Env, weight: map<string, nat>, runtimeType: string, visited: set<string>, w: Walked,
      before: seq<Selection>, incremental: bool)
    requires Bounds(env.fragments, weight)
  {
    forall f <- w.visited - visited :: Told(env, weight, runtimeType, f, before + w.nodes, incremental)
  }

  lemma ToldOn(env: Env, weight: map<string, nat>, runtimeType: string, visited: set<string>, h: Walked, less: nat,
      size: nat, before: seq<Selection>, incremental: bool)
    requires Bounds(env.fragments, weight) && less <= size
    requires AllTold(env, weight, runtimeType, visited, size, before, incremental)
    requires NewTold(env, weight, runtimeType, visited, h, before, incremental)
    ensures AllTold(env, weight, runtimeType, h.visited, less, before + h.nodes, incremental)
  {
    forall f <- h.visited | f in env.fragments && weight[f] < less
      ensures Told(env, weight, runtimeType, f, before + h.nodes, incremental)
    {
      if f in visited { assert Told(env, weight, runtimeType, f, before, incremental); }
    }
  }

  lemma ToldInTurn(env: Env, weight: map<string, nat>, runtimeType: string, visited: set<string>, h: Walked, t: Walked,
      before: seq<Selection>, incremental: bool)
    requires Bounds(env.fragments, weight)
    requires NewTold(env, weight, runtimeType, visited, h, before, incremental)
    requires NewTold(env, weight, runtimeType, h.visited, t, before + h.nodes, incremental)
    ensures NewTold(env, weight, runtimeType, visited, Walked(h.nodes + t.nodes, t.visited, h.deferred + t.deferred),
              before, incremental)
  {
    Regroup(before, h.nodes, t.nodes);
    forall f <- t.visited - visited
      ensures Told(env, weight, runtimeType, f, before + h.nodes + t.nodes, incremental)
    {
      if f in h.visited { assert Told(env, weight, runtimeType, f, before + h.nodes, incremental); }
    }
  }

  lemma {:induction false} WalkOrder(env: Env, weight: map<string, nat>, runtimeType: string, ss: seq<Selection>,
      visited: set<string>, before: seq<Selection>, incremental: bool)
    requires Bounds(env.fragments, weight)
    requires AllTold(env, weight, runtimeType, visited, Size(ss, weight), before, incremental)
    ensures var w := Walk(env, runtimeType, ss, visited, incremental);
            && Firsts(before + w.nodes) == Firsts(before + WrittenOut(env, weight, runtimeType, ss, incremental))
            && NewTold(env, weight, runtimeType, visited, w, before, incremental)
    decreases env.fragments.Keys - visited, ss
  {
    if ss != [] {
      var h := WalkOne(env, runtimeType, ss[0], visited, incremental);
      var t := Walk(env, runtimeType, ss[1..], h.visited, incremental);
      var now := before + h.nodes;
      WalkOneOrder(env, weight, runtimeType, ss[0], visited, before, incremental);
      ToldOn(env, weight, runtimeType, visited, h, Size(ss[1..], weight), Size(ss, weight), before, incremental);
      WalkOrder(env, weight, runtimeType, ss[1..], h.visited, now, incremental);
      FirstsInTurn(before, h.nodes, t.nodes, WrittenOne(env, weight, runtimeType, ss[0], incremental),
        WrittenOut(env, weight, runtimeType, ss[1..], incremental));
      ToldInTurn(env, weight, runtimeType, visited, h, t, before, incremental);
    }
  }

  lemma {:induction false} WalkOneOrder(env: Env, weight: map<string, nat>, runtimeType: string, s: Selection,
      visited: set<string>, before: seq<Selection>, incremental: bool)
    requires Bounds(env.fragments, weight)
    requires AllTold(env, weight, runtimeType, visited, SizeOne(s, weight), before, incremental)
    ensures var w := WalkOne(env, runtimeType, s, visited, incremental);
            && Firsts(before + w.nodes) == Firsts(before + WrittenOne(env, weight, runtimeType, s, incremental))
            && NewTold(env, weight, runtimeType, visited, w, before, incremental)
    decreases env.fragments.Keys - visited, s
  {
    if !IsField(env, s) && Expands(env, runtimeType, s) && !SetsAside(env, s, incremental) {
      var body := Body(env, s);
      var written := WrittenOut(env, weight, runtimeType, body, incremental);
      BodySize(env, weight, runtimeType, s);
      if s.InlineFragment? {
        WalkOrder(env, weight, runtimeType, body, visited, before, incremental);
      } else if s.name in visited {
        assert before + [] == before;
        FirstsStay(before, written);
      } else {
        WalkOrder(env, weight, runtimeType, body, visited + {s.name}, before, incremental);
        var nodes := Walk(env, runtimeType, body, visited + {s.name}, incremental).nodes;
        forall n <- written ensures n in before + nodes {
          FirstsAreAll(before + written, n);
          FirstsAreAll(before + nodes, n);
        }
      }
    }
  }

  /** Visiting each fragment once keeps the order of writing every one out: fields come up in the same order. */
  lemma CollectedInOrder(env: Env, weight: map<string, nat>, runtimeType: string, ss: seq<Selection>,
      incremental: bool)
    requires Bounds(env.fragments, weight)
    ensures Firsts(Walk(env, runtimeType, ss, {}, incremental).nodes)
            == Firsts(WrittenOut(env, weight, runtimeType, ss, incremental))
  {
    WalkOrder(env, weight, runtimeType, ss, {}, [], incremental);
    assert forall ns: seq<Selection> :: [] + ns == ns;
  }
}
