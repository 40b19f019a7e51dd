/** Comparable views of argument literals (fastql/validation/rules.py, `_arguments_map` and `_value_repr`). */
module Arguments {
  import opened Ast

  /** What two literals share exactly when they mean the same: block quoting and the order of input
      object fields do not matter. A sorted list of fields is kept as the multiset it sorts. */
  datatype Repr =
    | RVariable(name: string)
    | RInt(lexeme: string)
    | RFloat(lexeme: string)
    | RString(text: string)
    | RBoolean(truth: bool)
    | RNull
    | REnum(name: string)
    | RList(items: seq<Repr>)
    | RObject(fields: multiset<(string, Repr)>)

  function ValueRepr(value: Value): Repr {
    match value
    case Variable(name) => RVariable(name)
    case IntValue(lexeme) => RInt(lexeme)
    case FloatValue(lexeme) => RFloat(lexeme)
    case StringValue(text, _) => RString(text)
    case BooleanValue(truth) => RBoolean(truth)
    case NullValue => RNull
    case EnumValue(name) => REnum(name)
    case ListValue(items) => RList(seq(|items|, i requires 0 <= i < |items| => ValueRepr(items[i])))
    case ObjectValue(fields) => RObject(multiset(FieldReprs(fields)))
  }

  function FieldReprs(fields: seq<ObjectField>): seq<(string, Repr)> {
    if fields == [] then [] else [(fields[0].name, ValueRepr(fields[0].value))] + FieldReprs(fields[1..])
  }

  /** The field's arguments by name; a later argument of the same name replaces an earlier one. */
  function ArgumentsMap(arguments: seq<Argument>): map<string, Repr> {
    if arguments == [] then map[]
    else
      var last := arguments[|arguments| - 1];
      ArgumentsMap(arguments[..|arguments| - 1])[last.name := ValueRepr(last.value)]
  }

  // ----- what comparable views compare ---------------------------------------------------------

  /** Two literals mean the same: same kind and content, lists item by item, input objects field by field in
      any order; how a string is quoted does not matter. */
  ghost predicate SameMeaning(v: Value, w: Value)
    decreases v
  {
    match v
    case Variable(name) => w == Variable(name)
    case IntValue(lexeme) => w == IntValue(lexeme)
    case FloatValue(lexeme) => w == FloatValue(lexeme)
    case StringValue(text, _) => w.StringValue? && w.text == text
    case BooleanValue(truth) => w == BooleanValue(truth)
    case NullValue => w == NullValue
    case EnumValue(name) => w == EnumValue(name)
    case ListValue(items) =>
      w.ListValue? && |w.items| == |items| && forall i | 0 <= i < |items| :: SameMeaning(items[i], w.items[i])
    case ObjectValue(fields) => w.ObjectValue? && SameFields(fields, w.fields)
  }

  /** The fields of both can be paired off so that names and meanings agree. */
  ghost predicate SameFields(fs: seq<ObjectField>, gs: seq<ObjectField>)
    decreases fs
  {
    if fs == [] then gs == []
    else exists j :: 0 <= j < |gs| && gs[j].name == fs[0].name && SameMeaning(fs[0].value, gs[j].value)
                     && SameFields(fs[1..], gs[..j] + gs[j + 1..])
  }

  lemma {:induction false} FieldReprsAt(fields: seq<ObjectField>, j: nat)
    requires j < |fields|
    ensures multiset(FieldReprs(fields))
            == multiset{(fields[j].name, ValueRepr(fields[j].value))}
               + multiset(FieldReprs(fields[..j] + fields[j + 1..]))
  {
    var rest := fields[..j] + fields[j + 1..];
    if j == 0 {
      assert rest == fields[1..];
    } else {
      FieldReprsAt(fields[1..], j - 1);
      assert rest[0] == fields[0] && rest[1..] == fields[1..][..j - 1] + fields[1..][j..];
    }
  }

  lemma {:induction false} FieldWithRepr(fields: seq<ObjectField>, r: (string, Repr)) returns (j: nat)
    requires r in FieldReprs(fields)
    ensures j < |fields| && r == (fields[j].name, ValueRepr(fields[j].value))
  {
    j := 0;
    if r != (fields[0].name, ValueRepr(fields[0].value)) {
      var k := FieldWithRepr(fields[1..], r);
      j := k + 1;
    }
  }

  /** Comparable views are equal exactly when the literals mean the same. */
  lemma {:induction false} ReprExactly(v: Value, w: Value)
    ensures ValueRepr(v) == ValueRepr(w) <==> SameMeaning(v, w)
    decreases v
  {
    match v
    case ListValue(items) =>
      if w.ListValue? {
        forall i | 0 <= i < |items| && i < |w.items|
          ensures ValueRepr(items[i]) == ValueRepr(w.items[i]) <==> SameMeaning(items[i], w.items[i])
        {
          ReprExactly(items[i], w.items[i]);
        }
        ListReprs(items, w.items);
      }
    case ObjectValue(fields) => if w.ObjectValue? { FieldReprsExactly(fields, w.fields); }
    case _ =>
  }

  lemma ListReprs(v: seq<Value>, w: seq<Value>)
    ensures ValueRepr(ListValue(v)) == ValueRepr(ListValue(w))
            <==> |v| == |w| && forall i | 0 <= i < |v| :: ValueRepr(v[i]) == ValueRepr(w[i])
  {
    var a, b := ValueRepr(ListValue(v)).items, ValueRepr(ListValue(w)).items;
    assert |a| == |v| && |b| == |w|;
    if a == b {
      forall i | 0 <= i < |v| ensures ValueRepr(v[i]) == ValueRepr(w[i]) {
        assert a[i] == ValueRepr(v[i]) && b[i] == ValueRepr(w[i]);
      }
    }
  }

  function Without(fields: seq<ObjectField>, j: nat): seq<ObjectField>
    requires j < |fields|
  {
    fields[..j] + fields[j + 1..]
  }

  lemma Cancel<T>(a: multiset<T>, b: multiset<T>, c: multiset<T>)
    ensures c + a == c + b <==> a == b
  {
    assert (c + a) - c == a && (c + b) - c == b;
  }

  lemma PairOff(fs: seq<ObjectField>, gs: seq<ObjectField>, j: nat)
    requires fs != [] && j < |gs|
    requires gs[j].name == fs[0].name && ValueRepr(gs[j].value) == ValueRepr(fs[0].value)
    ensures multiset(FieldReprs(fs)) == multiset(FieldReprs(gs))
            <==> multiset(FieldReprs(fs[1..])) == multiset(FieldReprs(Without(gs, j)))
  {
    FieldReprsAt(fs, 0);
    assert fs[..0] + fs[1..] == fs[1..];
    FieldReprsAt(gs, j);
    Cancel(multiset(FieldReprs(fs[1..])), multiset(FieldReprs(Without(gs, j))),
      multiset{(fs[0].name, ValueRepr(fs[0].value))});
  }

  lemma {:induction false} FieldReprsExactly(fs: seq<ObjectField>, gs: seq<ObjectField>)
    ensures multiset(FieldReprs(fs)) == multiset(FieldReprs(gs)) <==> SameFields(fs, gs)
    decreases fs
  {
    if fs == [] {
      if gs != [] { assert FieldReprs(gs)[0] in multiset(FieldReprs(gs)); }
    } else {
      forall j | 0 <= j < |gs|
        ensures ValueRepr(fs[0].value) == ValueRepr(gs[j].value) <==> SameMeaning(fs[0].value, gs[j].value)
        ensures multiset(FieldReprs(fs[1..])) == multiset(FieldReprs(Without(gs, j)))
                <==> SameFields(fs[1..], gs[..j] + gs[j + 1..])
      {
        ReprExactly(fs[0].value, gs[j].value);
        FieldReprsExactly(fs[1..], Without(gs, j));
      }
      if multiset(FieldReprs(fs)) == multiset(FieldReprs(gs)) {
        assert FieldReprs(fs)[0] in multiset(FieldReprs(gs));
        var j := FieldWithRepr(gs, FieldReprs(fs)[0]);
        PairOff(fs, gs, j);
      }
      if SameFields(fs, gs) {
        var j :| 0 <= j < |gs| && gs[j].name == fs[0].name && SameMeaning(fs[0].value, gs[j].value)
                 && SameFields(fs[1..], gs[..j] + gs[j + 1..]);
        PairOff(fs, gs, j);
      }
    }
  }

  /** Argument `j` is the last one called `name`. */
  predicate LastCalled(arguments: seq<Argument>, name: string, j: nat) {
    j < |arguments| && arguments[j].name == name && forall l | j < l < |arguments| :: arguments[l].name != name
  }

  /** The map has exactly the names of the arguments, and of each the last occurrence. */
  lemma {:induction false} ArgumentsMapExactly(arguments: seq<Argument>, name: string)
    ensures name in ArgumentsMap(arguments) <==> exists j: nat :: LastCalled(arguments, name, j)
    ensures forall j: nat | LastCalled(arguments, name, j) ::
              ArgumentsMap(arguments)[name] == ValueRepr(arguments[j].value)
    decreases |arguments|
  {
    if arguments != [] {
      var front, last := arguments[..|arguments| - 1], arguments[|arguments| - 1];
      ArgumentsMapExactly(front, name);
      if last.name == name {
        assert LastCalled(arguments, name, |arguments| - 1);
      } else {
        assert forall j: nat | LastCalled(front, name, j) :: LastCalled(arguments, name, j);
        assert forall j: nat | LastCalled(arguments, name, j) :: LastCalled(front, name, j);
      }
    }
  }

  ghost predicate Given(arguments: seq<Argument>, name: string) { exists j: nat :: LastCalled(arguments, name, j) }

  /** Under every name both or neither have an argument, and the last ones mean the same. */
  ghost predicate SameArguments(a: seq<Argument>, b: seq<Argument>) {
    && (forall name :: Given(a, name) <==> Given(b, name))
    && forall name, i: nat, j: nat | LastCalled(a, name, i) && LastCalled(b, name, j) ::
         SameMeaning(a[i].value, b[j].value)
  }

  /** Argument maps are equal exactly when the arguments mean the same. */
  lemma ArgumentsMapsAgree(a: seq<Argument>, b: seq<Argument>)
    ensures ArgumentsMap(a) == ArgumentsMap(b) <==> SameArguments(a, b)
  {
    var m, n := ArgumentsMap(a), ArgumentsMap(b);
    forall name ensures (name in m <==> Given(a, name)) && (name in n <==> Given(b, name)) {
      ArgumentsMapExactly(a, name);
      ArgumentsMapExactly(b, name);
    }
    forall name, i: nat, j: nat | LastCalled(a, name, i) && LastCalled(b, name, j)
      ensures name in m && name in n && (m[name] == n[name] <==> SameMeaning(a[i].value, b[j].value))
    {
      ArgumentsMapExactly(a, name);
      ArgumentsMapExactly(b, name);
      ReprExactly(a[i].value, b[j].value);
    }
    if SameArguments(a, b) {
      assert m.Keys == n.Keys;
      forall name <- m ensures m[name] == n[name] {
        var i: nat :| LastCalled(a, name, i);
        var j: nat :| LastCalled(b, name, j);
      }
    }
  }
}
