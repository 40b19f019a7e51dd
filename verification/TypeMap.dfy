/** The type map of fastql/types/schema.py: a depth-first walk over a finite, possibly cyclic graph of type
    objects, told apart by identity, that fills a dictionary by name or raises on a duplicate. */
module TypeMap {
  import opened Ast

  /** Identity of a type object. */
  type Id = nat

  /** What a field or argument refers to: a type object under list and non-null wrappers. */
  datatype Ref = Plain(id: Id) | ListOf(ofType: Ref) | NonNullOf(ofType: Ref)

  datatype FieldDef = FieldDef(ref: Ref, args: seq<Ref>)

  /** The type objects; objects of other classes are passed over. */
  datatype Node =
    | Leaf(name: string)
    | Composite(name: string, interfaces: seq<Id>, fields: seq<FieldDef>)
    | Union(name: string, members: seq<Id>)
    | Input(name: string, inputs: seq<Ref>)
    | Other

  type Graph = map<Id, Node>
  type Types = map<string, Id>

  predicate Named(g: Graph, id: Id) { id in g && !g[id].Other? }

  function NameOf(g: Graph, id: Id): string
    requires Named(g, id)
  {
    g[id].name
  }

  function Bare(ref: Ref): Id {
    match ref
    case Plain(id) => id
    case ListOf(r) => Bare(r)
    case NonNullOf(r) => Bare(r)
  }

  function Bares(refs: seq<Ref>): seq<Id> { if refs == [] then [] else [Bare(refs[0])] + Bares(refs[1..]) }

  function FieldTargets(fields: seq<FieldDef>): seq<Id> {
    if fields == [] then [] else [Bare(fields[0].ref)] + Bares(fields[0].args) + FieldTargets(fields[1..])
  }

  /** The type objects a type object mentions. */
  function Mentions(g: Graph, id: Id): seq<Id>
    requires Named(g, id)
  {
    match g[id]
    case Leaf(_) => []
    case Composite(_, interfaces, fields) => interfaces + FieldTargets(fields)
    case Union(_, members) => members
    case Input(_, inputs) => Bares(inputs)
  }

  /** `ref` is `id` under any number of wrappers. */
  predicate Refers(ref: Ref, id: Id) {
    match ref
    case Plain(target) => target == id
    case ListOf(inner) => Refers(inner, id)
    case NonNullOf(inner) => Refers(inner, id)
  }

  lemma {:induction false} BareExactly(ref: Ref, id: Id)
    ensures Refers(ref, id) <==> Bare(ref) == id
  {
    match ref
    case Plain(_) =>
    case ListOf(inner) => BareExactly(inner, id);
    case NonNullOf(inner) => BareExactly(inner, id);
  }

  lemma {:induction false} BaresExactly(refs: seq<Ref>, id: Id)
    ensures id in Bares(refs) <==> exists r <- refs :: Refers(r, id)
  {
    if refs != [] {
      BareExactly(refs[0], id);
      BaresExactly(refs[1..], id);
    }
  }

  predicate FieldRefers(f: FieldDef, id: Id) { Refers(f.ref, id) || exists a <- f.args :: Refers(a, id) }

  lemma {:induction false} TargetsExactly(fields: seq<FieldDef>, id: Id)
    ensures id in FieldTargets(fields) <==> exists f <- fields :: FieldRefers(f, id)
  {
    if fields != [] {
      BareExactly(fields[0].ref, id);
      BaresExactly(fields[0].args, id);
      TargetsExactly(fields[1..], id);
      var first, rest := fields[0], fields[1..];
      assert forall f <- fields :: f == first || f in rest;
      if FieldRefers(first, id) { assert first in fields; }
      if f :| f in rest && FieldRefers(f, id) { assert f in fields; }
    }
  }

  /** The type object refers to `id`: as an interface, in a field or its arguments, as a member, in an input field. */
  predicate NodeRefers(node: Node, id: Id) {
    match node
    case Leaf(_) => false
    case Composite(_, interfaces, fields) => id in interfaces || exists f <- fields :: FieldRefers(f, id)
    case Union(_, members) => id in members
    case Input(_, inputs) => exists r <- inputs :: Refers(r, id)
    case Other => false
  }

  /** A type mentions exactly the types it refers to. */
  lemma MentionsExactly(g: Graph, id: Id, next: Id)
    requires Named(g, id)
    ensures next in Mentions(g, id) <==> NodeRefers(g[id], next)
  {
    match g[id]
    case Composite(_, _, fields) => TargetsExactly(fields, next);
    case Input(_, inputs) => BaresExactly(inputs, next);
    case _ =>
  }

  // ----- reachability -------------------------------------------------------------------------

  predicate Route(g: Graph, roots: seq<Id>, p: seq<Id>) {
    && p != [] && p[0] in roots && (forall id <- p :: Named(g, id))
    && forall i | 0 <= i < |p| - 1 :: p[i + 1] in Mentions(g, p[i])
  }

  ghost predicate Reached(g: Graph, roots: seq<Id>, id: Id) { exists p :: Route(g, roots, p) && p[|p| - 1] == id }

  lemma ReachedOn(g: Graph, roots: seq<Id>, id: Id, next: Id)
    requires Reached(g, roots, id) && Named(g, id) && Named(g, next) && next in Mentions(g, id)
    ensures Reached(g, roots, next)
  {
    var p :| Route(g, roots, p) && p[|p| - 1] == id;
    var q := p + [next];
    forall i | 0 <= i < |q| - 1 ensures q[i + 1] in Mentions(g, q[i]) {
      if i < |p| - 1 { assert q[i] == p[i] && q[i + 1] == p[i + 1]; }
    }
    assert Route(g, roots, q) && q[|q| - 1] == next;
  }

  /** Two distinct reachable types share a name. */
  ghost predicate Clash(g: Graph, roots: seq<Id>) {
    exists a, b :: Clashes(g, roots, a, b)
  }

  ghost predicate Clashes(g: Graph, roots: seq<Id>, a: Id, b: Id) {
    a != b && Reached(g, roots, a) && Reached(g, roots, b) && Named(g, a) && Named(g, b) && NameOf(g, a) == NameOf(g, b)
  }

  /** The map has exactly the names of the reachable types, for those very types. */
  ghost predicate Exact(g: Graph, roots: seq<Id>, m: Types) {
    forall n, id :: (n in m && m[n] == id) <==> (Reached(g, roots, id) && Named(g, id) && NameOf(g, id) == n)
  }

  // ----- the walk ---------------------------------------------------------------------------------

  predicate Holds(g: Graph, m: Types, id: Id) { Named(g, id) && NameOf(g, id) in m && m[NameOf(g, id)] == id }

  predicate HoldsAll(g: Graph, m: Types, ids: seq<Id>) { forall id <- ids :: Named(g, id) ==> Holds(g, m, id) }

  predicate Keyed(g: Graph, m: Types) { forall n <- m :: Named(g, m[n]) && NameOf(g, m[n]) == n }

  ghost predicate AllReached(g: Graph, roots: seq<Id>, m: Types) { forall n <- m :: Reached(g, roots, m[n]) }

  predicate Within(m: Types, more: Types) { forall n <- m :: n in more && more[n] == m[n] }

  /** Types entered between `before` and `after` have all they mention in `after`. */
  predicate Finished(g: Graph, before: Types, after: Types) {
    forall id <- g :: Holds(g, after, id) && !Holds(g, before, id) ==> HoldsAll(g, after, Mentions(g, id))
  }

  /** What collecting the `targets` does to the map. */
  ghost predicate Collected(g: Graph, roots: seq<Id>, before: Types, after: Types, targets: seq<Id>) {
    Keyed(g, after) && AllReached(g, roots, after) && Within(before, after) && HoldsAll(g, after, targets)
        && Finished(g, before, after)
  }

  lemma HoldsMore(g: Graph, m: Types, more: Types, ids: seq<Id>)
    requires Within(m, more) && HoldsAll(g, m, ids)
    ensures HoldsAll(g, more, ids)
  {
  }

  lemma CollectedBoth(g: Graph, roots: seq<Id>, a: Types, b: Types, c: Types, first: seq<Id>, second: seq<Id>)
    requires Collected(g, roots, a, b, first) && Collected(g, roots, b, c, second)
    ensures Collected(g, roots, a, c, first + second)
  {
    HoldsMore(g, b, c, first);
    forall id <- g | Holds(g, c, id) && !Holds(g, a, id) ensures HoldsAll(g, c, Mentions(g, id)) {
      if Holds(g, b, id) { HoldsMore(g, b, c, Mentions(g, id)); }
    }
  }

  /** Entering a type and then all it mentions. */
  lemma CollectedOne(g: Graph, roots: seq<Id>, before: Types, after: Types, id: Id)
    requires Named(g, id) && NameOf(g, id) !in before
    requires Collected(g, roots, before[NameOf(g, id) := id], after, Mentions(g, id))
    ensures Collected(g, roots, before, after, [id])
  {
    var entered := before[NameOf(g, id) := id];
    assert Within(before, entered);
    forall x <- g | Holds(g, after, x) && !Holds(g, before, x) ensures HoldsAll(g, after, Mentions(g, x)) {
      assert x == id || !Holds(g, entered, x);
    }
    assert Holds(g, entered, id);
  }

  function Left(g: Graph, m: Types): set<Id> { set id | id in g && Named(g, id) && !Holds(g, m, id) }

  lemma LeftLess(g: Graph, before: Types, after: Types)
    requires Within(before, after)
    ensures Left(g, after) <= Left(g, before) && |Left(g, after)| <= |Left(g, before)|
  {
    SubsetSize(Left(g, after), Left(g, before));
  }

  lemma {:induction false} SubsetSize(a: set<Id>, b: set<Id>)
    requires a <= b
    ensures |a| <= |b| && (a != b ==> |a| < |b|)
  {
    if a != {} {
      var x :| x in a;
      SubsetSize(a - {x}, b - {x});
    }
  }

  class Schema {
    const g: Graph
    const roots: seq<Id>
    var typeMap: Types

    /** The query, mutation and subscription types that are there, then the extra types. */
    constructor (g: Graph, roots: seq<Id>)
      ensures this.g == g && this.roots == roots && typeMap == map[]
    {
      this.g, this.roots := g, roots;
      typeMap := map[];
    }

    ghost predicate Valid()
      reads this
    {
      Keyed(g, typeMap) && AllReached(g, roots, typeMap)
    }

    /** Each target that is a type is reachable. */
    ghost predicate CanReach(targets: seq<Id>) { forall t <- targets :: Named(g, t) ==> Reached(g, roots, t) }

    /** `_initialize_type_map`; false stands for the raised duplicate-name error. */
    method InitializeTypeMap() returns (ok: bool)
      modifies this
      ensures ok <==> !Clash(g, roots)
      ensures ok ==> Exact(g, roots, typeMap)
    {
      typeMap := map[];
      RootsReached(g, roots);
      ok := CollectNamedTypes(roots);
      if ok { ClosedIsAll(g, roots, typeMap); }
    }

    method CollectNamedTypes(targets: seq<Id>) returns (ok: bool)
      requires Valid() && CanReach(targets)
      modifies this`typeMap
      ensures ok ==> Collected(g, roots, old(typeMap), typeMap, targets)
      ensures !ok ==> Clash(g, roots)
      decreases |Left(g, typeMap)|, 1
    {
      ghost var before := typeMap;
      for i := 0 to |targets|
        invariant Collected(g, roots, before, typeMap, targets[..i])
      {
        LeftLess(g, before, typeMap);
        ghost var now := typeMap;
        ok := CollectNamedType(targets[i]);
        if !ok { return; }
        CollectedBoth(g, roots, before, now, typeMap, targets[..i], [targets[i]]);
        assert targets[..i + 1] == targets[..i] + [targets[i]];
      }
      assert targets[..|targets|] == targets;
      ok := true;
    }

    /** `_collect_named_type`. */
    method CollectNamedType(id: Id) returns (ok: bool)
      requires Valid() && (Named(g, id) ==> Reached(g, roots, id))
      modifies this`typeMap
      ensures ok ==> Collected(g, roots, old(typeMap), typeMap, [id])
      ensures !ok ==> Clash(g, roots)
      decreases |Left(g, typeMap)|, 0
    {
      if !Named(g, id) { return true; }
      var name := NameOf(g, id);
      if name in typeMap {
        ok := typeMap[name] == id;
        if !ok { assert Clashes(g, roots, typeMap[name], id); }
        return;
      }
      ghost var before := typeMap;
      typeMap := typeMap[name := id];
      ghost var entered := typeMap;
      EnteredLeft(g, before, id);
      MentionsReached(g, roots, id);
      match g[id] {
        case Leaf(_) =>
        case Composite(_, interfaces, fields) =>
          ok := CollectNamedTypes(interfaces);
          if !ok { return; }
          ghost var now := typeMap;
          LeftLess(g, entered, now);
          ok := CollectFields(fields);
          if !ok { return; }
          CollectedBoth(g, roots, entered, now, typeMap, interfaces, FieldTargets(fields));
        case Union(_, members) =>
          ok := CollectNamedTypes(members);
          if !ok { return; }
        case Input(_, inputs) =>
          ok := CollectReferences(inputs);
          if !ok { return; }
      }
      CollectedOne(g, roots, before, typeMap, id);
      ok := true;
    }

    method CollectFields(fields: seq<FieldDef>) returns (ok: bool)
      requires Valid() && CanReach(FieldTargets(fields))
      modifies this`typeMap
      ensures ok ==> Collected(g, roots, old(typeMap), typeMap, FieldTargets(fields))
      ensures !ok ==> Clash(g, roots)
      decreases |Left(g, typeMap)|, 4
    {
      ghost var before := typeMap;
      for i := 0 to |fields|
        invariant Collected(g, roots, before, typeMap, FieldTargets(fields[..i]))
      {
        LeftLess(g, before, typeMap);
        ghost var now := typeMap;
        FieldTargetsMore(fields, i);
        ok := CollectField(fields[i]);
        if !ok { return; }
        CollectedBoth(g, roots, before, now, typeMap, FieldTargets(fields[..i]),
            [Bare(fields[i].ref)] + Bares(fields[i].args));
      }
      assert fields[..|fields|] == fields;
      ok := true;
    }

    /** `_collect_field`. */
    method CollectField(field: FieldDef) returns (ok: bool)
      requires Valid() && CanReach([Bare(field.ref)] + Bares(field.args))
      modifies this`typeMap
      ensures ok ==> Collected(g, roots, old(typeMap), typeMap, [Bare(field.ref)] + Bares(field.args))
      ensures !ok ==> Clash(g, roots)
      decreases |Left(g, typeMap)|, 3
    {
      ghost var before := typeMap;
      ok := CollectTypeReference(field.ref);
      if !ok { return; }
      ghost var typed := typeMap;
      LeftLess(g, before, typed);
      ok := CollectReferences(field.args);
      if !ok { return; }
      CollectedBoth(g, roots, before, typed, typeMap, [Bare(field.ref)], Bares(field.args));
    }

    /** `_collect_argument` and `_collect_input_field`, for each of them. */
    method CollectReferences(refs: seq<Ref>) returns (ok: bool)
      requires Valid() && CanReach(Bares(refs))
      modifies this`typeMap
      ensures ok ==> Collected(g, roots, old(typeMap), typeMap, Bares(refs))
      ensures !ok ==> Clash(g, roots)
      decreases |Left(g, typeMap)|, 2
    {
      ghost var before := typeMap;
      for i := 0 to |refs|
        invariant Collected(g, roots, before, typeMap, Bares(refs[..i]))
      {
        LeftLess(g, before, typeMap);
        ghost var now := typeMap;
        BaresMore(refs, i);
        ok := CollectTypeReference(refs[i]);
        if !ok { return; }
        CollectedBoth(g, roots, before, now, typeMap, Bares(refs[..i]), [Bare(refs[i])]);
      }
      assert refs[..|refs|] == refs;
      ok := true;
    }

    /** `_collect_type_reference`. */
    method CollectTypeReference(ref: Ref) returns (ok: bool)
      requires Valid() && CanReach([Bare(ref)])
      modifies this`typeMap
      ensures ok ==> Collected(g, roots, old(typeMap), typeMap, [Bare(ref)])
      ensures !ok ==> Clash(g, roots)
      decreases |Left(g, typeMap)|, 1, ref
    {
      match ref
      case Plain(id) =>
        assert Bare(ref) in [Bare(ref)];
        ok := CollectNamedType(id);
      case ListOf(r) => ok := CollectTypeReference(r);
      case NonNullOf(r) => ok := CollectTypeReference(r);
    }
  }

  lemma {:induction false} BaresConcat(a: seq<Ref>, b: seq<Ref>)
    ensures Bares(a + b) == Bares(a) + Bares(b)
  {
    if a == [] {
      assert a + b == b;
    } else {
      assert (a + b)[1..] == a[1..] + b;
      BaresConcat(a[1..], b);
    }
  }

  /** The next reference's target comes after those before it, and is one of all targets. */
  lemma BaresMore(refs: seq<Ref>, i: nat)
    requires i < |refs|
    ensures Bares(refs[..i + 1]) == Bares(refs[..i]) + [Bare(refs[i])]
    ensures Bare(refs[i]) in Bares(refs)
  {
    assert refs[..i + 1] == refs[..i] + [refs[i]];
    BaresAppend(refs[..i], refs[i]);
    BareMember(refs, i);
  }

  lemma BaresAppend(refs: seq<Ref>, ref: Ref)
    ensures Bares(refs + [ref]) == Bares(refs) + [Bare(ref)]
  {
    BaresConcat(refs, [ref]);
    assert [ref][1..] == [];
  }

  lemma {:induction false} BareMember(refs: seq<Ref>, i: nat)
    requires i < |refs|
    ensures Bare(refs[i]) in Bares(refs)
  {
    if i > 0 {
      BareMember(refs[1..], i - 1);
      assert Bare(refs[i]) in Bares(refs[1..]);
    }
  }

  lemma {:induction false} FieldTargetsConcat(a: seq<FieldDef>, b: seq<FieldDef>)
    ensures FieldTargets(a + b) == FieldTargets(a) + FieldTargets(b)
  {
    if a == [] {
      assert a + b == b;
    } else {
      assert (a + b)[1..] == a[1..] + b;
      FieldTargetsConcat(a[1..], b);
    }
  }

  lemma FieldTargetsMore(fields: seq<FieldDef>, i: nat)
    requires i < |fields|
    ensures FieldTargets(fields[..i + 1]) == FieldTargets(fields[..i]) + ([Bare(fields[i].ref)] + Bares(fields[i].args))
    ensures forall t <- [Bare(fields[i].ref)] + Bares(fields[i].args) :: t in FieldTargets(fields)
  {
    assert fields[..i + 1] == fields[..i] + [fields[i]];
    FieldTargetsAppend(fields[..i], fields[i]);
    forall t <- [Bare(fields[i].ref)] + Bares(fields[i].args) ensures t in FieldTargets(fields) {
      FieldMember(fields, i, t);
    }
  }

  lemma FieldTargetsAppend(fields: seq<FieldDef>, field: FieldDef)
    ensures FieldTargets(fields + [field]) == FieldTargets(fields) + ([Bare(field.ref)] + Bares(field.args))
  {
    var own := [Bare(field.ref)] + Bares(field.args);
    FieldTargetsConcat(fields, [field]);
    assert [field][1..] == [] && own + [] == own;
  }

  lemma {:induction false} FieldMember(fields: seq<FieldDef>, i: nat, t: Id)
    requires i < |fields| && t in [Bare(fields[i].ref)] + Bares(fields[i].args)
    ensures t in FieldTargets(fields)
  {
    if i > 0 {
      FieldMember(fields[1..], i - 1, t);
      assert t in FieldTargets(fields[1..]);
    }
  }

  lemma RootsReached(g: Graph, roots: seq<Id>)
    ensures forall r <- roots | Named(g, r) :: Reached(g, roots, r)
  {
    forall r <- roots | Named(g, r) ensures Reached(g, roots, r) {
      assert Route(g, roots, [r]) && [r][|[r]| - 1] == r;
    }
  }

  lemma MentionsReached(g: Graph, roots: seq<Id>, id: Id)
    requires Named(g, id) && Reached(g, roots, id)
    ensures forall t <- Mentions(g, id) | Named(g, t) :: Reached(g, roots, t)
  {
    forall t <- Mentions(g, id) | Named(g, t) ensures Reached(g, roots, t) { ReachedOn(g, roots, id, t); }
  }

  lemma EnteredLeft(g: Graph, before: Types, id: Id)
    requires Named(g, id) && NameOf(g, id) !in before
    ensures |Left(g, before[NameOf(g, id) := id])| < |Left(g, before)|
  {
    var after := before[NameOf(g, id) := id];
    assert id in Left(g, before) && id !in Left(g, after);
    SubsetSize(Left(g, after), Left(g, before));
  }

  /** A finished map that holds the roots holds exactly what is reachable. */
  lemma ClosedIsAll(g: Graph, roots: seq<Id>, m: Types)
    requires Collected(g, roots, map[], m, roots)
    ensures !Clash(g, roots)
    ensures Exact(g, roots, m)
  {
    forall id | Reached(g, roots, id) ensures Holds(g, m, id) {
      var p :| Route(g, roots, p) && p[|p| - 1] == id;
      RouteHeld(g, roots, m, p);
    }
  }

  lemma {:induction false} RouteHeld(g: Graph, roots: seq<Id>, m: Types, p: seq<Id>)
    requires Collected(g, roots, map[], m, roots) && Route(g, roots, p)
    ensures Holds(g, m, p[|p| - 1])
    decreases |p|
  {
    if |p| > 1 {
      var q := p[..|p| - 1];
      assert Route(g, roots, q) by {
        forall i | 0 <= i < |q| - 1 ensures q[i + 1] in Mentions(g, q[i]) { assert p[i + 1] in Mentions(g, p[i]); }
      }
      RouteHeld(g, roots, m, q);
      var last := q[|q| - 1];
      assert p[|q| - 1 + 1] in Mentions(g, p[|q| - 1]);
      assert HoldsAll(g, m, Mentions(g, last));
    }
  }
}
