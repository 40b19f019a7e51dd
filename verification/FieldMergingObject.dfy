/** The validator object while it checks field merging: response keys gathered into a dictionary, errors
    appended, the rule applied again to each key's merged sub-selections. */
module FieldMergingObject {
  import opened Ast
  import opened Arguments
  import opened Executor
  import opened Gist
  import opened FieldMerging

  /** Nodes by response key. Which key the rule looks at first does not change its verdict. */
  type Grouped = map<string, seq<Found>>

  function At(grouped: Grouped, key: string): seq<Found> { if key in grouped then grouped[key] else [] }

  /** `_merge_grouped`. */
  function Merged(into: Grouped, extra: Grouped): Grouped {
    map key | key in into.Keys + extra.Keys :: At(into, key) + At(extra, key)
  }

  ghost predicate Groups(grouped: Grouped, found: seq<Found>) {
    forall key :: (key in grouped <==> FoundUnder(found, key) != []) && At(grouped, key) == FoundUnder(found, key)
  }

  lemma {:induction false} UnderConcat(a: seq<Found>, b: seq<Found>, key: string)
    ensures FoundUnder(a + b, key) == FoundUnder(a, key) + FoundUnder(b, key)
  {
    if a == [] {
      assert a + b == b;
    } else {
      assert (a + b)[1..] == a[1..] + b && (a + b)[0] == a[0];
      UnderConcat(a[1..], b, key);
      Regroup(if ResponseKey(a[0].node) == key then [a[0]] else [], FoundUnder(a[1..], key), FoundUnder(b, key));
    }
  }

  lemma Regroup(a: seq<Found>, b: seq<Found>, c: seq<Found>)
    ensures a + (b + c) == a + b + c
  {
  }

  lemma MergedGroups(into: Grouped, a: seq<Found>, extra: Grouped, b: seq<Found>)
    requires Groups(into, a) && Groups(extra, b)
    ensures Groups(Merged(into, extra), a + b)
  {
    forall key ensures FoundUnder(a + b, key) == At(into, key) + At(extra, key) { UnderConcat(a, b, key); }
  }

  lemma SingleGroup(node: Selection, parent: string)
    ensures Groups(map[ResponseKey(node) := [Found(node, parent)]], [Found(node, parent)])
  {
    assert forall key :: FoundUnder([Found(node, parent)][1..], key) == [];
  }

  /** The rule's demand for one key. */
  predicate KeyMerges(env: Env, weight: map<string, nat>, ss: seq<Selection>, parent: string, key: string)
    requires Bounds(env.fragments, weight)
  {
    var group := FoundUnder(Gather(env, ss, parent, {}).found, key);
    NoConflict(group) && GroupMerges(env, weight, group)
  }

  predicate GroupMerges(env: Env, weight: map<string, nat>, group: seq<Found>)
    requires Bounds(env.fragments, weight)
  {
    GoesOn(env, group).Some? ==> Merges(env, weight, Combined(group), GoesOn(env, group).value)
  }

  lemma MergesByKey(env: Env, weight: map<string, nat>, ss: seq<Selection>, parent: string, keys: set<string>)
    requires Bounds(env.fragments, weight)
    requires forall key :: key in keys <==> FoundUnder(Gather(env, ss, parent, {}).found, key) != []
    ensures Merges(env, weight, ss, parent) <==> forall key <- keys :: KeyMerges(env, weight, ss, parent, key)
  {
    var found := Gather(env, ss, parent, {}).found;
    forall f <- found ensures ResponseKey(f.node) in keys { FoundUnderExact(found, ResponseKey(f.node), f); }
    forall key <- keys ensures exists f <- found :: ResponseKey(f.node) == key {
      FoundUnderExact(found, key, FoundUnder(found, key)[0]);
    }
    if Merges(env, weight, ss, parent) {
      forall key <- keys ensures KeyMerges(env, weight, ss, parent, key) {
        var f :| f in found && ResponseKey(f.node) == key;
      }
    }
    if forall key <- keys :: KeyMerges(env, weight, ss, parent, key) {
      assert forall f <- found :: KeyMerges(env, weight, ss, parent, ResponseKey(f.node));
    }
  }

  datatype Conflict = DifferentFields(key: string, node: Selection) | DifferentArguments(key: string, node: Selection)

  /** Node `i` is the first to disagree with node 0. */
  predicate FirstConflict(entries: seq<Found>, i: nat) {
    && 0 < i < |entries| && !Alike(entries[0].node, entries[i].node)
    && forall j | 0 <= j < i :: Alike(entries[0].node, entries[j].node)
  }

  function ConflictAt(key: string, entries: seq<Found>, i: nat): Conflict
    requires i < |entries| && forall f <- entries :: f.node.Field?
  {
    assert entries[i] in entries && entries[0] in entries;
    if entries[i].node.name != entries[0].node.name then DifferentFields(key, entries[i].node)
    else DifferentArguments(key, entries[i].node)
  }

  class MergingRule {
    const env: Env
    ghost const weight: map<string, nat>
    var errors: seq<Conflict>

    constructor (env: Env, ghost weight: map<string, nat>)
      ensures this.env == env && this.weight == weight && errors == []
    {
      this.env, this.weight := env, weight;
      errors := [];
    }

    /** `_fields_by_response_key`. */
    method FieldsByResponseKey(ss: seq<Selection>, parent: string, visited: set<string>)
      returns (grouped: Grouped, after: set<string>)
      ensures var g := Gather(env, ss, parent, visited); Groups(grouped, g.found) && after == g.visited
      decreases env.fragments.Keys - visited, ss
    {
      grouped, after := map[], visited;
      ghost var found: seq<Found> := [];
      assert ss[0..] == ss;
      for i := 0 to |ss|
        invariant visited <= after && Groups(grouped, found)
        invariant var rest := Gather(env, ss[i..], parent, after);
                  found + rest.found == Gather(env, ss, parent, visited).found
                      && rest.visited == Gather(env, ss, parent, visited).visited
      {
        var s := ss[i];
        ghost var here := GatherOne(env, s, parent, after);
        ghost var rest := Gather(env, ss[i + 1..], parent, here.visited);
        assert ss[i..][0] == s && ss[i..][1..] == ss[i + 1..];
        assert found + (here.found + rest.found) == found + here.found + rest.found;
        var extra: Grouped := map[];
        match s {
          case Field(_, _, _, _, _) =>
            extra := map[ResponseKey(s) := [Found(s, parent)]];
            SingleGroup(s, parent);
          case InlineFragment(condition, _, selections) =>
            extra, after := FieldsByResponseKey(selections, Target(env, condition, parent), after);
          case FragmentSpread(name, _) =>
            if name in env.fragments && name !in after {
              var fragment := env.fragments[name];
              extra, after := FieldsByResponseKey(fragment.selections, Target(env, Some(fragment.condition), parent),
                  after + {name});
            }
        }
        MergedGroups(grouped, found, extra, here.found);
        grouped := Merged(grouped, extra);
        found := found + here.found;
      }
      assert ss[|ss|..] == [] && found + [] == found;
    }

    /** One key's nodes against the first of them; the first disagreement is reported. */
    method CheckGroup(key: string, entries: seq<Found>)
      requires entries != [] && forall f <- entries :: f.node.Field?
      modifies this
      ensures old(errors) <= errors && (errors == old(errors) <==> NoConflict(entries))
      ensures errors != old(errors) ==>
                exists i :: 0 < i < |entries| && FirstConflict(entries, i)
                            && errors == old(errors) + [ConflictAt(key, entries, i)]
    {
      var first := entries[0].node;
      for i := 1 to |entries|
        invariant errors == old(errors) && forall j | 0 <= j < i :: Alike(first, entries[j].node)
      {
        var node := entries[i].node;
        assert entries[i] in entries;
        if node.name != first.name {
          errors := errors + [DifferentFields(key, node)];
          assert FirstConflict(entries, i);
          return;
        }
        if ArgumentsMap(first.arguments) != ArgumentsMap(node.arguments) {
          errors := errors + [DifferentArguments(key, node)];
          assert FirstConflict(entries, i);
          return;
        }
      }
    }

    /** `_validate_field_merging`. */
    method ValidateFieldMerging(ss: seq<Selection>, parent: string)
      requires Bounds(env.fragments, weight)
      modifies this
      ensures old(errors) <= errors && (errors == old(errors) <==> Merges(env, weight, ss, parent))
      decreases Size(ss, weight), 1
    {
      var grouped, _ := FieldsByResponseKey(ss, parent, {});
      ghost var found := Gather(env, ss, parent, {}).found;
      MergesByKey(env, weight, ss, parent, grouped.Keys);
      CheckGroups(grouped, found);
      CheckBelow(grouped, ss, parent);
    }

    method CheckGroups(grouped: Grouped, ghost found: seq<Found>)
      requires Groups(grouped, found) && forall f <- found :: f.node.Field?
      modifies this
      ensures old(errors) <= errors
      ensures errors == old(errors) <==> forall key <- grouped.Keys :: NoConflict(FoundUnder(found, key))
    {
      var left := grouped.Keys;
      while left != {}
        invariant left <= grouped.Keys && old(errors) <= errors
        invariant errors == old(errors) <==> forall key <- grouped.Keys - left :: NoConflict(FoundUnder(found, key))
        decreases |left|
      {
        var key :| key in left;
        left := left - {key};
        forall f <- grouped[key] ensures f.node.Field? { FoundUnderExact(found, key, f); }
        assert At(grouped, key) == FoundUnder(found, key);
        CheckGroup(key, At(grouped, key));
      }
    }

    method CheckBelow(grouped: Grouped, ss: seq<Selection>, parent: string)
      requires Bounds(env.fragments, weight) && Groups(grouped, Gather(env, ss, parent, {}).found)
      modifies this
      ensures old(errors) <= errors
      ensures errors == old(errors)
              <==> forall key <- grouped.Keys :: GroupMerges(env, weight,
                   FoundUnder(Gather(env, ss, parent, {}).found, key))
      decreases Size(ss, weight), 0
    {
      ghost var found := Gather(env, ss, parent, {}).found;
      var left := grouped.Keys;
      while left != {}
        invariant left <= grouped.Keys && old(errors) <= errors
        invariant errors == old(errors) <==> forall key <- grouped.Keys - left ::
                  GroupMerges(env, weight, FoundUnder(found, key))
        decreases |left|
      {
        var key :| key in left;
        left := left - {key};
        var named := GoesOn(env, At(grouped, key));
        if named.Some? {
          CombinedSmaller(env, weight, ss, parent, key);
          ValidateFieldMerging(Combined(At(grouped, key)), named.value);
        }
      }
    }
  }
}
