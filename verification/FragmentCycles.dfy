/** The fragment-cycle rule of fastql/validation/rules.py: its path-based search ends, reports an error
    exactly when fragments spread each other in a circle, and so exactly when execution, which unfolds
    spreads, has no bound. */
module FragmentCycles {
  import opened Ast
  import opened Executor

  type Fragments = map<string, FragmentBody>

  /** `_spreads_in`: the names spread anywhere in a selection set. */
  function Spreads(ss: seq<Selection>): seq<string> {
    if ss == [] then [] else SpreadsOne(ss[0]) + Spreads(ss[1..])
  }

  function SpreadsOne(s: Selection): seq<string> {
    match s
    case Field(_, _, _, _, sub) => if sub.SelectionSet? then Spreads(sub.selections) else []
    case FragmentSpread(name, _) => [name]
    case InlineFragment(_, _, selections) => Spreads(selections)
  }

  // ----- the graph of spreads ---------------------------------------------------------------

  predicate Edge(fragments: Fragments, a: string, b: string) {
    a in fragments && b in Spreads(fragments[a].selections)
  }

  predicate IsWalk(fragments: Fragments, p: seq<string>) {
    p != [] && forall i | 0 <= i < |p| - 1 :: Edge(fragments, p[i], p[i + 1])
  }

  predicate IsCycle(fragments: Fragments, p: seq<string>) { IsWalk(fragments, p) && |p| >= 2 && p[0] == p[|p| - 1] }

  ghost predicate HasCycle(fragments: Fragments) { exists p :: IsCycle(fragments, p) }

  /** A walk from `name` that comes back to itself or to the path that led there. */
  predicate Closes(fragments: Fragments, name: string, path: seq<string>, q: seq<string>) {
    && IsWalk(fragments, q) && |q| >= 2 && q[0] == name
    && (q[|q| - 1] in path || q[|q| - 1] in q[..|q| - 1])
  }

  ghost predicate Finds(fragments: Fragments, name: string, path: seq<string>) {
    exists q :: Closes(fragments, name, path, q)
  }

  /** The search at `name` finds something through the spread of `target`. */
  ghost predicate FindsVia(fragments: Fragments, target: string, path: seq<string>) {
    target in path || Finds(fragments, target, path + [target])
  }

  lemma ViaIsFound(fragments: Fragments, name: string, target: string, path: seq<string>)
    requires Edge(fragments, name, target) && FindsVia(fragments, target, path)
    ensures Finds(fragments, name, path)
  {
    if target in path {
      assert Closes(fragments, name, path, [name, target]);
    } else {
      var q :| Closes(fragments, target, path + [target], q);
      var longer := [name] + q;
      assert longer[..|longer| - 1] == [name] + q[..|q| - 1];
      assert q[0] in q[..|q| - 1];
      assert Closes(fragments, name, path, longer);
    }
  }

  lemma FoundIsVia(fragments: Fragments, name: string, path: seq<string>) returns (target: string)
    requires Finds(fragments, name, path) && name in path
    ensures Edge(fragments, name, target) && FindsVia(fragments, target, path)
  {
    var q :| Closes(fragments, name, path, q);
    target := q[1];
    assert Edge(fragments, q[0], q[1]);
    var last := q[|q| - 1];
    if |q| == 2 {
      assert last in path;
    } else {
      var rest := q[1..];
      assert rest[..|rest| - 1] == q[1..|q| - 1];
      if last in q[..|q| - 1] {
        var i :| 0 <= i < |q| - 1 && q[i] == last;
        assert i == 0 ==> last in path + [target];
        assert i > 0 ==> rest[i - 1] == last && last in rest[..|rest| - 1];
      }
      forall i | 0 <= i < |rest| - 1 ensures Edge(fragments, rest[i], rest[i + 1]) {
        assert Edge(fragments, q[i + 1], q[i + 2]);
      }
      assert Closes(fragments, target, path + [target], rest);
    }
  }

  lemma SearchFindsCycles(fragments: Fragments)
    ensures HasCycle(fragments) <==> exists name :: name in fragments && Finds(fragments, name, [name])
  {
    if HasCycle(fragments) {
      var p :| IsCycle(fragments, p);
      assert Edge(fragments, p[0], p[1]) && Closes(fragments, p[0], [p[0]], p);
    }
    if name :| name in fragments && Finds(fragments, name, [name]) {
      var q :| Closes(fragments, name, [name], q);
      var last := |q| - 1;
      var i := if q[last] == q[0] then 0 else var j :| 0 <= j < last && q[j] == q[last]; j;
      Suffix(fragments, q, i);
      assert IsCycle(fragments, q[i..]);
    }
  }

  lemma Suffix(fragments: Fragments, q: seq<string>, i: nat)
    requires IsWalk(fragments, q) && i < |q|
    ensures IsWalk(fragments, q[i..])
  {
    var s := q[i..];
    forall j | 0 <= j < |s| - 1 ensures Edge(fragments, s[j], s[j + 1]) {
      assert Edge(fragments, q[i + j], q[i + j + 1]);
    }
  }

  // ----- the rule ------------------------------------------------------------------------------

  /** One reported error: the spread's target and the path that led to it. */
  datatype CycleError = CycleError(target: string, path: seq<string>)

  function Names(path: seq<string>): set<string> { set n | n in path }

  class Validator {
    const fragments: Fragments
    const names: seq<string>
    var errors: seq<CycleError>

    constructor (fragments: Fragments, names: seq<string>)
      ensures this.fragments == fragments && this.names == names && errors == []
    {
      this.fragments, this.names := fragments, names;
      errors := [];
    }

    /** `_check_no_fragment_cycles`; `names` is the fragment table in its own order. */
    method CheckNoFragmentCycles()
      requires Names(names) == fragments.Keys
      modifies this
      ensures old(errors) <= errors
      ensures errors != old(errors) <==> HasCycle(fragments)
    {
      ghost var before := errors;
      for i := 0 to |names|
        invariant before <= errors
        invariant errors != before <==> exists j | 0 <= j < i :: Finds(fragments, names[j], [names[j]])
      {
        ghost var now := errors;
        var reported := DetectFragmentCycle(names[i], [names[i]], {});
        assert errors != now <==> Finds(fragments, names[i], [names[i]]);
      }
      SearchFindsCycles(fragments);
      if j :| 0 <= j < |names| && Finds(fragments, names[j], [names[j]]) { assert names[j] in Names(names); }
      if HasCycle(fragments) {
        var name :| name in fragments && Finds(fragments, name, [name]);
        assert name in Names(names);
      }
    }

    /** `_detect_fragment_cycle`; a path's key is its set of names, and each key is reported once. */
    method DetectFragmentCycle(name: string, path: seq<string>, reported: set<set<string>>)
      returns (after: set<set<string>>)
      requires name in path
      modifies this
      ensures old(errors) <= errors && |errors| - |old(errors)| == |after| - |reported| && reported <= after
      ensures after != {} <==> reported != {} || Finds(fragments, name, path)
      decreases |fragments.Keys - Names(path)|, if name in fragments then 1 else 0
    {
      after := reported;
      if name !in fragments {
        NothingFound(fragments, name, path);
        return;
      }
      var spreads := Spreads(fragments[name].selections);
      for i := 0 to |spreads|
        invariant old(errors) <= errors && |errors| - |old(errors)| == |after| - |reported| && reported <= after
        invariant after != {} <==> reported != {} || exists j | 0 <= j < i :: FindsVia(fragments, spreads[j], path)
      {
        var target := spreads[i];
        if target in path {
          var key := Names(path) + {target};
          if key !in after {
            after := after + {key};
            errors := errors + [CycleError(target, path)];
          }
          assert FindsVia(fragments, spreads[i], path);
        } else {
          ShorterSearch(fragments, path, target);
          after := DetectFragmentCycle(target, path + [target], after);
          assert FindsVia(fragments, spreads[i], path) <==> Finds(fragments, target, path + [target]);
        }
      }
      if Finds(fragments, name, path) {
        var target := FoundIsVia(fragments, name, path);
        var j :| 0 <= j < |spreads| && spreads[j] == target;
      }
      if j :| 0 <= j < |spreads| && FindsVia(fragments, spreads[j], path) {
        ViaIsFound(fragments, name, spreads[j], path);
      }
    }
  }

  lemma NothingFound(fragments: Fragments, name: string, path: seq<string>)
    requires name !in fragments
    ensures !Finds(fragments, name, path)
  {
    forall q ensures !Closes(fragments, name, path, q) {
      if |q| >= 2 && q[0] == name { assert !Edge(fragments, q[0], q[1]); }
    }
  }

  lemma ShorterSearch(fragments: Fragments, path: seq<string>, target: string)
    requires target !in path
    ensures var left, after := fragments.Keys - Names(path), fragments.Keys - Names(path + [target]);
            if target in fragments then |after| < |left| else after == left
  {
    var left := fragments.Keys - Names(path);
    assert Names(path + [target]) == Names(path) + {target};
    assert fragments.Keys - Names(path + [target]) == left - {target};
  }

  // ----- acyclic fragments and bounded unfolding ----------------------------------------------------

  lemma {:induction false} SpreadWeighs(ss: seq<Selection>, name: string, weight: map<string, nat>)
    requires name in Spreads(ss) && name in weight
    ensures weight[name] < Size(ss, weight)
  {
    if name in SpreadsOne(ss[0]) {
      SpreadWeighsOne(ss[0], name, weight);
    } else {
      SpreadWeighs(ss[1..], name, weight);
    }
  }

  lemma {:induction false} SpreadWeighsOne(s: Selection, name: string, weight: map<string, nat>)
    requires name in SpreadsOne(s) && name in weight
    ensures weight[name] < SizeOne(s, weight)
  {
    match s
    case Field(_, _, _, _, sub) => SpreadWeighs(sub.selections, name, weight);
    case FragmentSpread(_, _) =>
    case InlineFragment(_, _, selections) => SpreadWeighs(selections, name, weight);
  }

  lemma {:induction false} WeightFalls(fragments: Fragments, weight: map<string, nat>, p: seq<string>)
    requires Bounds(fragments, weight) && IsWalk(fragments, p) && |p| >= 2 && p[|p| - 1] in fragments
    ensures p[0] in fragments && weight[p[|p| - 1]] < weight[p[0]]
    decreases |p|
  {
    assert Edge(fragments, p[0], p[1]);
    if |p| > 2 {
      Suffix(fragments, p, 1);
      WeightFalls(fragments, weight, p[1..]);
    }
    SpreadWeighs(fragments[p[0]].selections, p[1], weight);
  }

  lemma BoundedIsAcyclic(fragments: Fragments, weight: map<string, nat>)
    requires Bounds(fragments, weight)
    ensures !HasCycle(fragments)
  {
    if p :| IsCycle(fragments, p) {
      assert Edge(fragments, p[0], p[1]);
      WeightFalls(fragments, weight, p);
    }
  }

  /** Weights of names that are not spread do not matter. */
  lemma {:induction false} SizeSame(ss: seq<Selection>, w1: map<string, nat>, w2: map<string, nat>)
    requires forall n <- Spreads(ss) :: (n in w1 <==> n in w2) && (n in w1 ==> w1[n] == w2[n])
    ensures Size(ss, w1) == Size(ss, w2)
  {
    if ss != [] {
      assert forall n <- SpreadsOne(ss[0]) :: n in Spreads(ss);
      assert forall n <- Spreads(ss[1..]) :: n in Spreads(ss);
      SizeOneSame(ss[0], w1, w2);
      SizeSame(ss[1..], w1, w2);
    }
  }

  lemma {:induction false} SizeOneSame(s: Selection, w1: map<string, nat>, w2: map<string, nat>)
    requires forall n <- SpreadsOne(s) :: (n in w1 <==> n in w2) && (n in w1 ==> w1[n] == w2[n])
    ensures SizeOne(s, w1) == SizeOne(s, w2)
  {
    match s
    case Field(_, _, _, _, sub) => if sub.SelectionSet? { SizeSame(sub.selections, w1, w2); }
    case FragmentSpread(name, _) => assert name in SpreadsOne(s);
    case InlineFragment(_, _, selections) => SizeSame(selections, w1, w2);
  }

  /** The weights so far bound fragments that spread only fragments weighed already, or unknown names. */
  predicate Weighed(fragments: Fragments, weight: map<string, nat>) {
    && weight.Keys <= fragments.Keys
    && forall f <- weight :: Size(fragments[f].selections, weight) <= weight[f] && Settled(fragments, weight, f)
  }

  predicate Settled(fragments: Fragments, weight: map<string, nat>, f: string)
    requires f in fragments
  {
    forall n <- Spreads(fragments[f].selections) :: n in fragments ==> n in weight
  }

  /** A sequence longer than the set it draws from repeats an element. */
  lemma {:induction false} Repeats(s: set<string>, p: seq<string>) returns (i: nat, j: nat)
    requires |p| > |s| && forall n <- p :: n in s
    ensures i < j < |p| && p[i] == p[j]
    decreases |p|
  {
    var last := p[|p| - 1];
    assert last in p;
    if last in p[..|p| - 1] {
      i :| 0 <= i < |p| - 1 && p[i] == last;
      j := |p| - 1;
    } else {
      i, j := Repeats(s - {last}, p[..|p| - 1]);
    }
  }

  function Unweighed(fragments: Fragments, weight: map<string, nat>): set<string> {
    set f | f in fragments && f !in weight
  }

  predicate Continues(fragments: Fragments, left: set<string>, f: string) {
    f in fragments && exists n <- Spreads(fragments[f].selections) :: n in left
  }

  /** Where every fragment left spreads another one left, walks among them go on forever. */
  lemma {:induction false} LongWalk(fragments: Fragments, left: set<string>, n: nat) returns (p: seq<string>)
    requires left != {} && forall f <- left :: Continues(fragments, left, f)
    ensures |p| == n + 1 && IsWalk(fragments, p) && forall f <- p :: f in left
  {
    if n == 0 {
      var f :| f in left;
      p := [f];
    } else {
      var shorter := LongWalk(fragments, left, n - 1);
      var last := shorter[|shorter| - 1];
      assert last in shorter;
      var next := StepOn(fragments, left, last);
      WalkOn(fragments, shorter, next);
      p := shorter + [next];
    }
  }

  lemma StepOn(fragments: Fragments, left: set<string>, last: string) returns (next: string)
    requires Continues(fragments, left, last)
    ensures next in left && Edge(fragments, last, next)
  {
    next :| next in Spreads(fragments[last].selections) && next in left;
  }

  lemma WalkOn(fragments: Fragments, p: seq<string>, next: string)
    requires IsWalk(fragments, p) && Edge(fragments, p[|p| - 1], next)
    ensures IsWalk(fragments, p + [next])
  {
    var longer := p + [next];
    forall i | 0 <= i < |longer| - 1 ensures Edge(fragments, longer[i], longer[i + 1]) {
      if i < |p| - 1 { assert Edge(fragments, p[i], p[i + 1]); }
    }
  }

  lemma ForeverIsCycle(fragments: Fragments, left: set<string>)
    requires left != {} && forall f <- left :: Continues(fragments, left, f)
    ensures HasCycle(fragments)
  {
    var p := LongWalk(fragments, left, |left|);
    var i, j := Repeats(left, p);
    var cycle := p[i..j + 1];
    forall m | 0 <= m < |cycle| - 1 ensures Edge(fragments, cycle[m], cycle[m + 1]) {
      assert Edge(fragments, p[i + m], p[i + m + 1]);
    }
    assert IsCycle(fragments, cycle);
  }

  lemma SomeSettled(fragments: Fragments, weight: map<string, nat>) returns (f: string)
    requires !HasCycle(fragments) && Unweighed(fragments, weight) != {}
    ensures f in Unweighed(fragments, weight) && Settled(fragments, weight, f)
  {
    var left := Unweighed(fragments, weight);
    if forall g <- left :: Continues(fragments, left, g) {
      ForeverIsCycle(fragments, left);
    }
    f :| f in left && !Continues(fragments, left, f);
  }

  lemma {:induction false} Weigh(fragments: Fragments, weight: map<string, nat>) returns (all: map<string, nat>)
    requires !HasCycle(fragments) && Weighed(fragments, weight)
    ensures Bounds(fragments, all)
    decreases |Unweighed(fragments, weight)|
  {
    if Unweighed(fragments, weight) == {} {
      all := weight;
      assert forall f <- fragments :: f !in Unweighed(fragments, weight);
    } else {
      var f := SomeSettled(fragments, weight);
      var more := WeighOne(fragments, weight, f);
      assert Unweighed(fragments, more) == Unweighed(fragments, weight) - {f};
      all := Weigh(fragments, more);
    }
  }

  lemma WeighOne(fragments: Fragments, weight: map<string, nat>, f: string) returns (more: map<string, nat>)
    requires Weighed(fragments, weight) && f in fragments && f !in weight && Settled(fragments, weight, f)
    ensures Weighed(fragments, more) && more.Keys == weight.Keys + {f}
  {
    more := weight[f := Size(fragments[f].selections, weight)];
    forall g <- more ensures Size(fragments[g].selections, more) <= more[g] && Settled(fragments, more, g) {
      assert Settled(fragments, weight, g);
      forall n <- Spreads(fragments[g].selections) ensures n in weight || n !in more {
        assert n in fragments ==> n in weight;
      }
      SizeSame(fragments[g].selections, weight, more);
    }
  }

  /** The rule's verdict is exactly whether unfolding spreads is bounded, which is what the executor needs. */
  lemma AcyclicExactlyWhenBounded(fragments: Fragments)
    ensures !HasCycle(fragments) <==> exists weight :: Bounds(fragments, weight)
  {
    if !HasCycle(fragments) {
      var weight := Weigh(fragments, map[]);
    } else if weight :| Bounds(fragments, weight) {
      BoundedIsAcyclic(fragments, weight);
    }
  }
}
