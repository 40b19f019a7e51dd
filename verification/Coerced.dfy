/** What input coercion gives, told from the value or literal and the type alone: which value comes out, and
    that nothing comes out otherwise. */
module Coerced {
  import opened Ast
  import opened Codec
  import Executor
  import opened Values

  // ----- numbers --------------------------------------------------------------------------------

  function Tens(n: nat): (p: int)
    ensures p > 0
  {
    if n == 0 then 1 else 10 * Tens(n - 1)
  }

  /** Moving the decimal point multiplies or divides by a power of ten. */
  lemma {:induction false} ShiftScales(x: real, n: nat)
    ensures Shift(x, n) == x * Tens(n) as real && Shift(x, 0 - n) * Tens(n) as real == x
  {
    if n > 0 {
      ShiftScales(x, n - 1);
      TenTimes(x, Shift(x, 1 - n), Tens(n - 1));
    }
  }

  lemma TenTimes(x: real, y: real, t: int)
    ensures 10.0 * (x * t as real) == x * (10 * t) as real
    ensures y / 10.0 * (10 * t) as real == y * t as real
  {
  }

  /** The integer an exponent stands for. */
  function ExponentOf(e: string): int {
    if e != "" && e[0] == '+' then Executor.LexemeInt(e[1..]) else Executor.LexemeInt(e)
  }

  lemma {:induction false} FindsMark(before: string, mark: char, after: string, a: char, b: char)
    requires a !in before && b !in before && (mark == a || mark == b)
    ensures Find(before + [mark] + after, a, b) == |before|
  {
    var s := before + [mark] + after;
    if before == "" {
      assert s[0] == mark;
    } else {
      assert s[0] == before[0] && s[1..] == before[1..] + [mark] + after;
      FindsMark(before[1..], mark, after, a, b);
    }
  }

  lemma Splits(before: string, mark: char, after: string, a: char, b: char)
    requires a !in before && b !in before && (mark == a || mark == b)
    ensures var s := before + [mark] + after;
            var i := Find(s, a, b);
            i == |before| && |s| == i + 1 + |after| && s[..i] == before && s[i + 1..] == after
  {
    FindsMark(before, mark, after, a, b);
  }

  lemma FractionIs(whole: string, fraction: string, s: string, k: int)
    requires s == whole + ['.'] + fraction && k == -|fraction|
    requires Find(s, '.', '.') == |whole| && s[..|whole|] == whole && s[|whole| + 1..] == fraction
    ensures Mantissa(s) == Shift(Executor.LexemeInt(whole + fraction) as real, k)
  {
  }

  /** Digits with a fraction are the integer they would be without the point, the point moved back. */
  lemma FractionWritten(whole: string, fraction: string, s: string, k: int)
    requires '.' !in whole && s == whole + ['.'] + fraction && k == -|fraction|
    ensures Mantissa(s) == Shift(Executor.LexemeInt(whole + fraction) as real, k)
  {
    Splits(whole, '.', fraction, '.', '.');
    FractionIs(whole, fraction, s, k);
  }

  /** No exponent. */
  predicate Plain(s: string) { 'e' !in s && 'E' !in s }

  lemma PlainMantissa(s: string)
    requires Plain(s)
    ensures LexemeReal(s) == Mantissa(s)
  {
    NoMark(s, 'e', 'E');
  }

  /** An exponent moves the point of what stands before it. */
  lemma ExponentWritten(mantissa: string, mark: char, e: string)
    requires Plain(mantissa) && (mark == 'e' || mark == 'E')
    ensures LexemeReal(mantissa + [mark] + e) == Shift(LexemeReal(mantissa), ExponentOf(e))
  {
    NoMark(mantissa, 'e', 'E');
    Splits(mantissa, mark, e, 'e', 'E');
  }

  // ----- raw values -------------------------------------------------------------------------------

  predicate IsInt32(n: int) { -2147483648 <= n <= 2147483647 }

  /** A value that is not null, as a scalar. */
  predicate ReadsScalar(w: World, value: Py, t: InType, r: Py) {
    match t
    case IntIn => value.PyInt? && IsInt32(value.n) && r == value
    case FloatIn =>
      || (value.PyFloat? && value.x.Some? && r == value)
      || (value.PyInt? && r == PyFloat(w.nearest(value.n as real)) && r.x.Some?)
    case StringIn => value.PyStr? && r == value
    case BooleanIn => value.PyBool? && r == value
    case IdIn => (value.PyStr? && r == value) || (value.PyInt? && r == PyStr(Decimal(value.n)))
    case _ => false
  }

  /** `r` is what `value` stands for at type `t`. */
  ghost predicate Reads(w: World, value: Py, t: InType, r: Py)
    decreases value, t
  {
    if value.PyNone? then r == PyNone && !t.NonNullIn?
    else
      match t
      case NonNullIn(u) => Reads(w, value, u, r)
      case ListIn(u) =>
        && r.PyList?
        && if value.PyList? then
             |r.items| == |value.items| && forall i | 0 <= i < |r.items| :: Reads(w, value.items[i], u, r.items[i])
           else |r.items| == 1 && Reads(w, value, u, r.items[0])
      case EnumIn(values) => value.PyStr? && value.s in values && r == values[value.s]
      case InputIn(name) =>
        if name !in w.inputs then r == value
        else
          && value.PyDict?
          && exists vs ::
               && |vs| == |w.inputs[name].fields| && Makes(w, name, vs, r)
               && forall i | 0 <= i < |vs| :: ReadsField(w, value.entries, w.inputs[name].fields[i], vs[i])
      case _ => ReadsScalar(w, value, t, r)
  }

  /** Entry `j` is the last one with the key. */
  predicate LastEntry(entries: seq<PyEntry>, key: string, j: nat) {
    j < |entries| && entries[j].key == key && forall l | j < l < |entries| :: entries[l].key != key
  }

  /** What a field that is not given is: its default, or nothing unless it is non-null. */
  predicate Unfilled(field: InputField, v: Option<Py>) {
    if field.default.Some? then v == field.default else v.None? && !field.inType.NonNullIn?
  }

  /** A field given reads its last value. */
  ghost predicate ReadsField(w: World, entries: seq<PyEntry>, field: InputField, v: Option<Py>)
    decreases entries
  {
    && ((forall e <- entries :: e.key != field.name) ==> Unfilled(field, v))
    && forall j: nat | LastEntry(entries, field.name, j) ::
         v.Some? && Reads(w, entries[j].value, field.inType, v.value)
  }

  /** The entries for the fields that are something, in order, under their Python names. */
  function Filled(fields: seq<InputField>, vs: seq<Option<Py>>): seq<PyEntry>
    requires |vs| == |fields|
  {
    if fields == [] then []
    else
      var last := |fields| - 1;
      Filled(fields[..last], vs[..last])
      + if vs[last].Some? then [PyEntry(fields[last].pythonName, vs[last].value)] else []
  }

  lemma FilledLast(fields: seq<InputField>, front: seq<Option<Py>>, v: Option<Py>)
    requires |fields| == |front| + 1
    ensures var last := fields[|front|];
            Filled(fields, front + [v])
            == Filled(fields[..|front|], front) + if v.Some? then [PyEntry(last.pythonName, v.value)] else []
  {
    assert (front + [v])[..|front|] == front;
  }

  /** The dictionary of those entries, or the object the user's constructor makes of them. */
  predicate Makes(w: World, name: string, vs: seq<Option<Py>>, r: Py)
    requires name in w.inputs && |vs| == |w.inputs[name].fields|
  {
    var entries := Filled(w.inputs[name].fields, vs);
    if w.inputs[name].constructed then r.PyObject? && w.construct(name, entries) == Some(r.id) else r == PyDict(entries)
  }

  lemma {:induction false} LookUpExactly(entries: seq<PyEntry>, key: string)
    ensures LookUp(entries, key).None? <==> forall e <- entries :: e.key != key
    ensures forall j: nat | LastEntry(entries, key, j) :: LookUp(entries, key) == Some(entries[j].value)
  {
    if entries != [] {
      var rest := entries[1..];
      LookUpExactly(rest, key);
      assert forall e <- entries :: e == entries[0] || e in rest;
      forall j: nat | LastEntry(entries, key, j) ensures LookUp(entries, key) == Some(entries[j].value) {
        if j > 0 {
          assert LastEntry(rest, key, j - 1);
        } else {
          assert forall e <- rest :: e.key != key;
        }
      }
    }
  }

  lemma {:induction false} SomeLastEntry(entries: seq<PyEntry>, key: string)
    requires exists e <- entries :: e.key == key
    ensures exists j: nat :: LastEntry(entries, key, j)
  {
    var last := |entries| - 1;
    if entries[last].key == key {
      assert LastEntry(entries, key, last);
    } else {
      assert entries == entries[..last] + [entries[last]];
      SomeLastEntry(entries[..last], key);
      var j: nat :| LastEntry(entries[..last], key, j);
      assert LastEntry(entries, key, j);
    }
  }

  /** A value coerces to exactly what it stands for, and to nothing when it stands for nothing. */
  lemma {:induction false} ReadExactly(w: World, value: Py, t: InType, r: Py)
    ensures CoerceInput(w, value, t) == Some(r) <==> Reads(w, value, t, r)
    decreases value, t, 0
  {
    if value.PyNone? {
      NoneReadExactly(w, t, r);
    } else {
      match t
      case NonNullIn(u) =>
        assert CoerceInput(w, value, t) == CoerceInput(w, value, u);
        ReadExactly(w, value, u, r);
      case ListIn(u) => ListReadExactly(w, value, u, r);
      case EnumIn(values) => EnumReadExactly(w, value, values, r);
      case InputIn(name) =>
        if name in w.inputs && value.PyDict? {
          ObjectReadExactly(w, value.entries, name, r);
        } else {
          OtherReadExactly(w, value, name, r);
        }
      case _ => ScalarReadExactly(w, value, t, r);
    }
  }

  lemma NoneReadExactly(w: World, t: InType, r: Py)
    ensures CoerceInput(w, PyNone, t) == Some(r) <==> Reads(w, PyNone, t, r)
  {
  }

  lemma EnumReadExactly(w: World, value: Py, values: map<string, Py>, r: Py)
    requires !value.PyNone?
    ensures CoerceInput(w, value, EnumIn(values)) == Some(r) <==> Reads(w, value, EnumIn(values), r)
  {
  }

  lemma OtherReadExactly(w: World, value: Py, name: string, r: Py)
    requires !value.PyNone? && !(name in w.inputs && value.PyDict?)
    ensures CoerceInput(w, value, InputIn(name)) == Some(r) <==> Reads(w, value, InputIn(name), r)
  {
  }

  lemma ScalarReadExactly(w: World, value: Py, t: InType, r: Py)
    requires Values.IsScalar(t) && !value.PyNone?
    ensures CoerceInput(w, value, t) == Some(r) <==> Reads(w, value, t, r)
  {
  }

  lemma ListReadExactly(w: World, value: Py, u: InType, r: Py)
    requires !value.PyNone?
    ensures CoerceInput(w, value, ListIn(u)) == Some(r) <==> Reads(w, value, ListIn(u), r)
    decreases value, u, 2
  {
    if r.PyList? {
      if value.PyList? {
        ItemsReadExactly(w, value.items, u, r.items);
      } else if |r.items| == 1 {
        ReadExactly(w, value, u, r.items[0]);
        assert r.items == [r.items[0]];
      }
    }
  }

  lemma {:induction false} ItemsReadExactly(w: World, items: seq<Py>, t: InType, rs: seq<Py>)
    ensures CoerceItems(w, items, t) == Some(rs)
            <==> |rs| == |items| && forall i | 0 <= i < |rs| :: Reads(w, items[i], t, rs[i])
    decreases items, t, 1
  {
    if items != [] && rs != [] {
      ReadExactly(w, items[0], t, rs[0]);
      ItemsReadExactly(w, items[1..], t, rs[1..]);
      assert rs == [rs[0]] + rs[1..];
      assert forall i | 0 < i < |rs| :: rs[i] == rs[1..][i - 1];
      assert forall i | 0 < i < |items| :: items[i] == items[1..][i - 1];
    }
  }

  lemma FieldReadExactly(w: World, entries: seq<PyEntry>, field: InputField, v: Option<Py>)
    ensures CoerceField(w, entries, field) == Some(if v.Some? then [PyEntry(field.pythonName, v.value)] else [])
            <==> ReadsField(w, entries, field, v)
    decreases entries, 0
  {
    LookUpExactly(entries, field.name);
    if exists e <- entries :: e.key == field.name {
      SomeLastEntry(entries, field.name);
      var j: nat :| LastEntry(entries, field.name, j);
      if v.Some? { ReadExactly(w, entries[j].value, field.inType, v.value); }
    }
  }

  lemma FieldReading(w: World, entries: seq<PyEntry>, field: InputField) returns (v: Option<Py>)
    requires CoerceField(w, entries, field).Some?
    ensures ReadsField(w, entries, field, v)
    ensures CoerceField(w, entries, field).value == if v.Some? then [PyEntry(field.pythonName, v.value)] else []
    decreases entries, 1
  {
    var one := CoerceField(w, entries, field).value;
    LookedUp(entries, field.name);
    v := if one == [] then None else Some(one[0].value);
    FieldReadExactly(w, entries, field, v);
  }

  ghost predicate ReadsFields(w: World, entries: seq<PyEntry>, fields: seq<InputField>, vs: seq<Option<Py>>) {
    |vs| == |fields| && forall i | 0 <= i < |vs| :: ReadsField(w, entries, fields[i], vs[i])
  }

  lemma {:induction false} FieldsRead(w: World, entries: seq<PyEntry>, fields: seq<InputField>, vs: seq<Option<Py>>)
    requires ReadsFields(w, entries, fields, vs)
    ensures CoerceFields(w, entries, fields) == Some(Filled(fields, vs))
    decreases entries, 2 + |fields|
  {
    if fields != [] {
      var last := |fields| - 1;
      FieldsRead(w, entries, fields[..last], vs[..last]);
      FieldReadExactly(w, entries, fields[last], vs[last]);
    }
  }

  lemma ReadsLast(w: World, entries: seq<PyEntry>, fields: seq<InputField>, front: seq<Option<Py>>, v: Option<Py>)
    requires fields != [] && ReadsFields(w, entries, fields[..|fields| - 1], front)
    requires ReadsField(w, entries, fields[|fields| - 1], v)
    ensures ReadsFields(w, entries, fields, front + [v])
  {
    forall i | 0 <= i < |fields| ensures ReadsField(w, entries, fields[i], (front + [v])[i]) {
      if i < |fields| - 1 { assert ReadsField(w, entries, fields[..|fields| - 1][i], front[i]); }
    }
  }

  lemma CoercedLast(w: World, entries: seq<PyEntry>, fields: seq<InputField>)
    requires fields != [] && CoerceFields(w, entries, fields).Some?
    ensures var last := |fields| - 1;
            && CoerceFields(w, entries, fields[..last]).Some? && CoerceField(w, entries, fields[last]).Some?
            && CoerceFields(w, entries, fields).value
               == CoerceFields(w, entries, fields[..last]).value + CoerceField(w, entries, fields[last]).value
  {
  }

  lemma {:induction false} FieldsReading(w: World, entries: seq<PyEntry>, fields: seq<InputField>)
    returns (vs: seq<Option<Py>>)
    requires CoerceFields(w, entries, fields).Some?
    ensures ReadsFields(w, entries, fields, vs) && Filled(fields, vs) == CoerceFields(w, entries, fields).value
    decreases entries, 2 + |fields|
  {
    vs := [];
    if fields != [] {
      var last := |fields| - 1;
      CoercedLast(w, entries, fields);
      var front := FieldsReading(w, entries, fields[..last]);
      var v := FieldReading(w, entries, fields[last]);
      FilledLast(fields, front, v);
      ReadsLast(w, entries, fields, front, v);
      vs := front + [v];
    }
  }

  lemma ObjectReadExactly(w: World, entries: seq<PyEntry>, name: string, r: Py)
    requires name in w.inputs
    ensures CoerceInput(w, PyDict(entries), InputIn(name)) == Some(r) <==> Reads(w, PyDict(entries), InputIn(name), r)
    decreases entries, 3 + |w.inputs[name].fields|
  {
    var fields := w.inputs[name].fields;
    if CoerceInput(w, PyDict(entries), InputIn(name)) == Some(r) {
      var vs := FieldsReading(w, entries, fields);
      assert Makes(w, name, vs, r);
    }
    if Reads(w, PyDict(entries), InputIn(name), r) {
      var vs :| |vs| == |fields| && Makes(w, name, vs, r)
          && forall i | 0 <= i < |vs| :: ReadsField(w, entries, fields[i], vs[i]);
      FieldsRead(w, entries, fields, vs);
    }
  }

  // ----- literals -----------------------------------------------------------------------------------

  /** The integer an integer token stands for: the one it is the decimal text of, or zero for `-0`. */
  predicate Stands(lexeme: string, n: int) { if lexeme == "-0" then n == 0 else Decimal(n) == lexeme }

  /** A literal that is neither null nor a variable, as a scalar. */
  predicate LiteralReadsScalar(w: World, node: Value, t: InType, r: Py) {
    match t
    case IntIn => node.IntValue? && r.PyInt? && Stands(node.lexeme, r.n) && IsInt32(r.n)
    case FloatIn =>
      (node.IntValue? || node.FloatValue?) && r == PyFloat(w.nearest(LexemeReal(node.lexeme))) && r.x.Some?
    case StringIn => node.StringValue? && r == PyStr(node.text)
    case BooleanIn => node.BooleanValue? && r == PyBool(node.truth)
    case IdIn => (node.StringValue? && r == PyStr(node.text)) || (node.IntValue? && r == PyStr(node.lexeme))
    case _ => false
  }

  /** `r` is what the literal `node` stands for at type `t`; a variable stands for its value whatever the type. */
  ghost predicate LiteralReads(w: World, node: Value, t: InType, variables: map<string, Py>, r: Py)
    decreases node, t
  {
    if node.Variable? then r == if node.name in variables then variables[node.name] else PyNone
    else if node.NullValue? then r == PyNone && !t.NonNullIn?
    else
      match t
      case NonNullIn(u) => !r.PyNone? && LiteralReads(w, node, u, variables, r)
      case ListIn(u) =>
        && r.PyList?
        && if node.ListValue? then
             |r.items| == |node.items|
             && forall i | 0 <= i < |r.items| :: LiteralReads(w, node.items[i], u, variables, r.items[i])
           else |r.items| == 1 && LiteralReads(w, node, u, variables, r.items[0])
      case EnumIn(values) => node.EnumValue? && node.name in values && r == values[node.name]
      case InputIn(name) =>
        if name !in w.inputs then r == PyNone
        else
          && node.ObjectValue?
          && exists vs ::
               && |vs| == |w.inputs[name].fields| && Makes(w, name, vs, r)
               && forall i | 0 <= i < |vs| ::
                    LiteralReadsField(w, node.fields, w.inputs[name].fields[i], variables, vs[i])
      case _ => LiteralReadsScalar(w, node, t, r)
  }

  predicate LastField(given: seq<ObjectField>, name: string, j: nat) {
    j < |given| && given[j].name == name && forall l | j < l < |given| :: given[l].name != name
  }

  ghost predicate LiteralReadsField(w: World, given: seq<ObjectField>, field: InputField, variables: map<string, Py>,
      v: Option<Py>)
    decreases given
  {
    && ((forall g <- given :: g.name != field.name) ==> Unfilled(field, v))
    && forall j: nat | LastField(given, field.name, j) ::
         v.Some? && LiteralReads(w, given[j].value, field.inType, variables, v.value)
  }

  lemma {:induction false} LookUpNodeExactly(given: seq<ObjectField>, name: string)
    ensures LookUpNode(given, name).None? <==> forall g <- given :: g.name != name
    ensures forall j: nat | LastField(given, name, j) :: LookUpNode(given, name) == Some(given[j].value)
  {
    if given != [] {
      var rest := given[1..];
      LookUpNodeExactly(rest, name);
      assert forall g <- given :: g == given[0] || g in rest;
      forall j: nat | LastField(given, name, j) ensures LookUpNode(given, name) == Some(given[j].value) {
        if j > 0 {
          assert LastField(rest, name, j - 1);
        } else {
          assert forall g <- rest :: g.name != name;
        }
      }
    }
  }

  lemma {:induction false} SomeLastField(given: seq<ObjectField>, name: string)
    requires exists g <- given :: g.name == name
    ensures exists j: nat :: LastField(given, name, j)
  {
    var last := |given| - 1;
    if given[last].name == name {
      assert LastField(given, name, last);
    } else {
      assert given == given[..last] + [given[last]];
      SomeLastField(given[..last], name);
      var j: nat :| LastField(given[..last], name, j);
      assert LastField(given, name, j);
    }
  }

  lemma DecimalInjective(m: int, n: int)
    requires Decimal(m) == Decimal(n)
    ensures m == n
  {
    ParsesDecimal(m);
    ParsesDecimal(n);
  }

  lemma TokenStands(lexeme: string, n: int)
    requires IntLexeme(lexeme)
    ensures Executor.LexemeInt(lexeme) == n <==> Stands(lexeme, n)
  {
    CanonicalExactly(lexeme);
    assert Executor.DigitsValue("0"[..0]) == 0;
    assert "-0"[1..] == "0";
    if lexeme != "-0" && Decimal(n) == lexeme { DecimalInjective(n, Executor.LexemeInt(lexeme)); }
  }

  lemma ScalarLiteralExactly(w: World, node: Value, t: InType, r: Py)
    requires Values.IsScalar(t) && Lexed(node)
    ensures ParseLiteral(w, t, node) == Some(r) <==> LiteralReadsScalar(w, node, t, r)
  {
    if t.IntIn? && node.IntValue? {
      TokenStands(node.lexeme, if r.PyInt? then r.n else 0);
    }
  }

  /** A literal coerces to exactly what it stands for, and to nothing when it stands for nothing. */
  lemma {:induction false} LiteralReadExactly(w: World, node: Value, t: InType, variables: map<string, Py>, r: Py)
    requires Lexed(node)
    ensures ValueFromAst(w, node, t, variables) == Some(r) <==> LiteralReads(w, node, t, variables, r)
    decreases node, t, 0
  {
    if node.NullValue? {
      NullStays(w, t, variables);
    } else if !node.Variable? {
      match t
      case NonNullIn(u) => LiteralReadExactly(w, node, u, variables, r);
      case ListIn(u) => LiteralListReadExactly(w, node, u, variables, r);
      case EnumIn(values) => LiteralEnumReadExactly(w, node, values, variables, r);
      case InputIn(name) =>
        if name in w.inputs && node.ObjectValue? {
          LiteralObjectReadExactly(w, node.fields, name, variables, r);
        } else {
          LiteralOtherReadExactly(w, node, name, variables, r);
        }
      case _ => LiteralScalarReadExactly(w, node, t, variables, r);
    }
  }

  lemma LiteralScalarReadExactly(w: World, node: Value, t: InType, variables: map<string, Py>, r: Py)
    requires Values.IsScalar(t) && Lexed(node) && !node.NullValue? && !node.Variable?
    ensures ValueFromAst(w, node, t, variables) == Some(r) <==> LiteralReads(w, node, t, variables, r)
  {
    ScalarLiteralExactly(w, node, t, r);
  }

  lemma LiteralEnumReadExactly(w: World, node: Value, values: map<string, Py>, variables: map<string, Py>, r: Py)
    requires !node.NullValue? && !node.Variable?
    ensures ValueFromAst(w, node, EnumIn(values), variables) == Some(r)
            <==> LiteralReads(w, node, EnumIn(values), variables, r)
  {
  }

  lemma LiteralOtherReadExactly(w: World, node: Value, name: string, variables: map<string, Py>, r: Py)
    requires !node.NullValue? && !node.Variable? && !(name in w.inputs && node.ObjectValue?)
    ensures ValueFromAst(w, node, InputIn(name), variables) == Some(r)
            <==> LiteralReads(w, node, InputIn(name), variables, r)
  {
  }

  lemma LiteralListReadExactly(w: World, node: Value, u: InType, variables: map<string, Py>, r: Py)
    requires Lexed(node) && !node.NullValue? && !node.Variable?
    ensures ValueFromAst(w, node, ListIn(u), variables) == Some(r) <==> LiteralReads(w, node, ListIn(u), variables, r)
    decreases node, u, 2
  {
    if r.PyList? {
      if node.ListValue? {
        LiteralItemsReadExactly(w, node.items, u, variables, r.items);
      } else if |r.items| == 1 {
        LiteralReadExactly(w, node, u, variables, r.items[0]);
        assert r.items == [r.items[0]];
      }
    }
  }

  lemma {:induction false} LiteralItemsReadExactly(w: World, items: seq<Value>, t: InType, variables: map<string, Py>,
      rs: seq<Py>)
    requires forall i <- items :: Lexed(i)
    ensures ItemsFromAst(w, items, t, variables) == Some(rs)
            <==> |rs| == |items| && forall i | 0 <= i < |rs| :: LiteralReads(w, items[i], t, variables, rs[i])
    decreases items, t, 1
  {
    if items != [] && rs != [] {
      LiteralReadExactly(w, items[0], t, variables, rs[0]);
      LiteralItemsReadExactly(w, items[1..], t, variables, rs[1..]);
      assert rs == [rs[0]] + rs[1..];
      assert forall i | 0 < i < |rs| :: rs[i] == rs[1..][i - 1];
      assert forall i | 0 < i < |items| :: items[i] == items[1..][i - 1];
    }
  }

  lemma LiteralFieldReadExactly(w: World, given: seq<ObjectField>, field: InputField, variables: map<string, Py>,
      v: Option<Py>)
    requires forall g <- given :: Lexed(g.value)
    ensures FieldFromAst(w, given, field, variables)
            == Some(if v.Some? then [PyEntry(field.pythonName, v.value)] else [])
            <==> LiteralReadsField(w, given, field, variables, v)
    decreases given, 0
  {
    LookUpNodeExactly(given, field.name);
    if exists g <- given :: g.name == field.name {
      SomeLastField(given, field.name);
      var j: nat :| LastField(given, field.name, j);
      assert given[j] in given;
      if v.Some? { LiteralReadExactly(w, given[j].value, field.inType, variables, v.value); }
    }
  }

  lemma LiteralFieldReading(w: World, given: seq<ObjectField>, field: InputField, variables: map<string, Py>)
    returns (v: Option<Py>)
    requires (forall g <- given :: Lexed(g.value)) && FieldFromAst(w, given, field, variables).Some?
    ensures LiteralReadsField(w, given, field, variables, v)
    ensures FieldFromAst(w, given, field, variables).value
            == if v.Some? then [PyEntry(field.pythonName, v.value)] else []
    decreases given, 1
  {
    var one := FieldFromAst(w, given, field, variables).value;
    LookedUpNode(given, field.name);
    v := if one == [] then None else Some(one[0].value);
    LiteralFieldReadExactly(w, given, field, variables, v);
  }

  ghost predicate LiteralReadsFields(w: World, given: seq<ObjectField>, fields: seq<InputField>,
      variables: map<string, Py>, vs: seq<Option<Py>>)
  {
    |vs| == |fields| && forall i | 0 <= i < |vs| :: LiteralReadsField(w, given, fields[i], variables, vs[i])
  }

  lemma {:induction false} LiteralFieldsRead(w: World, given: seq<ObjectField>, fields: seq<InputField>,
      variables: map<string, Py>, vs: seq<Option<Py>>)
    requires (forall g <- given :: Lexed(g.value)) && LiteralReadsFields(w, given, fields, variables, vs)
    ensures FieldsFromAst(w, given, fields, variables) == Some(Filled(fields, vs))
    decreases given, 2 + |fields|
  {
    if fields != [] {
      var last := |fields| - 1;
      LiteralFieldsRead(w, given, fields[..last], variables, vs[..last]);
      LiteralFieldReadExactly(w, given, fields[last], variables, vs[last]);
    }
  }

  lemma LiteralReadsLast(w: World, given: seq<ObjectField>, fields: seq<InputField>, variables: map<string, Py>,
      front: seq<Option<Py>>, v: Option<Py>)
    requires fields != [] && LiteralReadsFields(w, given, fields[..|fields| - 1], variables, front)
    requires LiteralReadsField(w, given, fields[|fields| - 1], variables, v)
    ensures LiteralReadsFields(w, given, fields, variables, front + [v])
  {
    forall i | 0 <= i < |fields| ensures LiteralReadsField(w, given, fields[i], variables, (front + [v])[i]) {
      if i < |fields| - 1 {
        assert LiteralReadsField(w, given, fields[..|fields| - 1][i], variables, front[i]);
      }
    }
  }

  lemma LiteralLast(w: World, given: seq<ObjectField>, fields: seq<InputField>, variables: map<string, Py>)
    requires fields != [] && FieldsFromAst(w, given, fields, variables).Some?
    ensures var last := |fields| - 1;
            && FieldsFromAst(w, given, fields[..last], variables).Some?
            && FieldFromAst(w, given, fields[last], variables).Some?
            && FieldsFromAst(w, given, fields, variables).value
               == FieldsFromAst(w, given, fields[..last], variables).value
                  + FieldFromAst(w, given, fields[last], variables).value
  {
  }

  lemma {:induction false} LiteralFieldsReading(w: World, given: seq<ObjectField>, fields: seq<InputField>,
      variables: map<string, Py>) returns (vs: seq<Option<Py>>)
    requires (forall g <- given :: Lexed(g.value)) && FieldsFromAst(w, given, fields, variables).Some?
    ensures LiteralReadsFields(w, given, fields, variables, vs)
    ensures Filled(fields, vs) == FieldsFromAst(w, given, fields, variables).value
    decreases given, 2 + |fields|
  {
    vs := [];
    if fields != [] {
      var last := |fields| - 1;
      LiteralLast(w, given, fields, variables);
      var front := LiteralFieldsReading(w, given, fields[..last], variables);
      var v := LiteralFieldReading(w, given, fields[last], variables);
      FilledLast(fields, front, v);
      LiteralReadsLast(w, given, fields, variables, front, v);
      vs := front + [v];
    }
  }

  lemma LiteralObjectReadExactly(w: World, given: seq<ObjectField>, name: string, variables: map<string, Py>, r: Py)
    requires name in w.inputs && forall g <- given :: Lexed(g.value)
    ensures ValueFromAst(w, ObjectValue(given), InputIn(name), variables) == Some(r)
            <==> LiteralReads(w, ObjectValue(given), InputIn(name), variables, r)
    decreases given, 3 + |w.inputs[name].fields|
  {
    var fields := w.inputs[name].fields;
    if ValueFromAst(w, ObjectValue(given), InputIn(name), variables) == Some(r) {
      var vs := LiteralFieldsReading(w, given, fields, variables);
      assert Makes(w, name, vs, r);
    }
    if LiteralReads(w, ObjectValue(given), InputIn(name), variables, r) {
      var vs :| |vs| == |fields| && Makes(w, name, vs, r)
          && forall i | 0 <= i < |vs| :: LiteralReadsField(w, given, fields[i], variables, vs[i]);
      LiteralFieldsRead(w, given, fields, variables, vs);
    }
  }
}
