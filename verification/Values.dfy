/** Input coercion of fastql/execution/values.py and fastql/types/scalars.py: argument literals and raw
    input values, two paths that must agree. */
module Values {
  import opened Ast
  import opened Lexer
  import Executor
  import opened Codec

  // ----- values and types -------------------------------------------------------------------

  datatype PyEntry = PyEntry(key: string, value: Py)

  /** Python values as input coercion sees them; dictionaries look the last entry of a key up. A float
      is finite, or infinite when nothing stands for it. */
  datatype Py =
    | PyNone | PyBool(b: bool) | PyInt(n: int) | PyFloat(x: Option<real>) | PyStr(s: string)
    | PyList(items: seq<Py>) | PyDict(entries: seq<PyEntry>) | PyObject(id: int)

  datatype InType =
    | NonNullIn(ofType: InType)
    | ListIn(ofType: InType)
    | IntIn | FloatIn | StringIn | BooleanIn | IdIn
    | EnumIn(values: map<string, Py>)
    | InputIn(name: string)

  /** `default` is the default value or what the default factory makes. */
  datatype InputField = InputField(name: string, pythonName: string, inType: InType, default: Option<Py>)

  /** An input object type's fields, and whether a Python type is built from them. */
  datatype InputDef = InputDef(fields: seq<InputField>, constructed: bool)

  /** Input object types by name, the user's constructors, and rounding to a float. */
  datatype World = World(inputs: map<string, InputDef>, construct: (string, seq<PyEntry>) -> Option<int>,
      nearest: real -> Option<real>)

  // ----- numbers -------------------------------------------------------------------------------

  /** `x` with its decimal point `k` places further right, or to the left when `k` is negative. */
  function Shift(x: real, k: int): real
    decreases if k < 0 then -k else k
  {
    if k == 0 then x else if k > 0 then 10.0 * Shift(x, k - 1) else Shift(x, k + 1) / 10.0
  }

  function Find(s: string, a: char, b: char): (i: nat)
    ensures i <= |s| && (i < |s| ==> s[i] == a || s[i] == b) && forall j | 0 <= j < i :: s[j] != a && s[j] != b
  {
    if s == "" || s[0] == a || s[0] == b then 0 else 1 + Find(s[1..], a, b)
  }

  function Mantissa(s: string): real {
    var dot := Find(s, '.', '.');
    if dot == |s| then Executor.LexemeInt(s) as real
    else Shift(Executor.LexemeInt(s[..dot] + s[dot + 1..]) as real, dot + 1 - |s|)
  }

  function Exponent(s: string): int {
    if s != "" && s[0] == '+' then Executor.LexemeInt(s[1..]) else Executor.LexemeInt(s)
  }

  /** The number an Int or Float lexeme denotes. */
  function LexemeReal(lexeme: string): real {
    var e := Find(lexeme, 'e', 'E');
    if e == |lexeme| then Mantissa(lexeme) else Shift(Mantissa(lexeme[..e]), Exponent(lexeme[e + 1..]))
  }

  /** `float(...)` of a number, refused when it is not finite. */
  function Float(w: World, x: real): Option<Py> { if w.nearest(x).Some? then Some(PyFloat(w.nearest(x))) else None }

  function InRange(n: int): Option<Py> { if -0x8000_0000 <= n <= 0x7FFF_FFFF then Some(PyInt(n)) else None }

  // ----- scalars ----------------------------------------------------------------------------------

  predicate IsScalar(t: InType) { t.IntIn? || t.FloatIn? || t.StringIn? || t.BooleanIn? || t.IdIn? }

  /** `parse_value` of the built-in scalars. */
  function ParseValue(w: World, t: InType, value: Py): Option<Py>
    requires IsScalar(t)
  {
    match t
    case IntIn => if value.PyInt? then InRange(value.n) else None
    case FloatIn => if value.PyInt? then Float(w, value.n as real) else if value.PyFloat? && value.x.Some?
        then Some(value) else None
    case StringIn => if value.PyStr? then Some(value) else None
    case BooleanIn => if value.PyBool? then Some(value) else None
    case IdIn => if value.PyStr? then Some(value) else if value.PyInt? then Some(PyStr(Decimal(value.n))) else None
  }

  /** `parse_literal` of the built-in scalars. */
  function ParseLiteral(w: World, t: InType, node: Value): Option<Py>
    requires IsScalar(t)
  {
    match t
    case IntIn => if node.IntValue? then InRange(Executor.LexemeInt(node.lexeme)) else None
    case FloatIn => if node.IntValue? || node.FloatValue? then Float(w, LexemeReal(node.lexeme)) else None
    case StringIn => if node.StringValue? then Some(PyStr(node.text)) else None
    case BooleanIn => if node.BooleanValue? then Some(PyBool(node.truth)) else None
    case IdIn =>
      if node.StringValue? then Some(PyStr(node.text)) else if node.IntValue? then Some(PyStr(node.lexeme)) else None
  }

  // ----- raw values -----------------------------------------------------------------------------------

  function LookUp(entries: seq<PyEntry>, key: string): Option<Py> {
    if entries == [] then None
    else if LookUp(entries[1..], key).Some? then LookUp(entries[1..], key)
    else if entries[0].key == key then Some(entries[0].value) else None
  }

  lemma {:induction false} LookedUp(entries: seq<PyEntry>, key: string)
    ensures LookUp(entries, key).Some? ==> PyEntry(key, LookUp(entries, key).value) in entries
  {
    if entries != [] { LookedUp(entries[1..], key); }
  }

  /** `coerce_input_value`. */
  function CoerceInput(w: World, value: Py, t: InType): Option<Py>
    decreases value, t, 0
  {
    match t
    case NonNullIn(u) => if value.PyNone? then None else CoerceInput(w, value, u)
    case ListIn(u) =>
      if value.PyNone? then Some(PyNone)
      else if value.PyList? then
        var items :- CoerceItems(w, value.items, u);
        Some(PyList(items))
      else
        var item :- CoerceInput(w, value, u);
        Some(PyList([item]))
    case EnumIn(values) =>
      if value.PyNone? then Some(PyNone) else if value.PyStr? && value.s in values then Some(values[value.s]) else None
    case InputIn(name) =>
      if value.PyNone? then Some(PyNone)
      else if name !in w.inputs then Some(value)
      else if !value.PyDict? then None
      else
        var result :- CoerceFields(w, value.entries, w.inputs[name].fields);
        Built(w, name, result)
    case _ => if value.PyNone? then Some(PyNone) else ParseValue(w, t, value)
  }

  function CoerceItems(w: World, items: seq<Py>, t: InType): Option<seq<Py>>
    decreases items, t, 1
  {
    if items == [] then Some([])
    else
      var first :- CoerceInput(w, items[0], t);
      var rest :- CoerceItems(w, items[1..], t);
      Some([first] + rest)
  }

  /** `_coerce_input_object`'s loop, on the first fields first. */
  function CoerceFields(w: World, entries: seq<PyEntry>, fields: seq<InputField>): Option<seq<PyEntry>>
    decreases entries, 1 + |fields|
  {
    if fields == [] then Some([])
    else
      var front :- CoerceFields(w, entries, fields[..|fields| - 1]);
      var last :- CoerceField(w, entries, fields[|fields| - 1]);
      Some(front + last)
  }

  function CoerceField(w: World, entries: seq<PyEntry>, field: InputField): Option<seq<PyEntry>>
    decreases entries, 0
  {
    LookedUp(entries, field.name);
    match LookUp(entries, field.name)
    case Some(given) =>
      var v :- CoerceInput(w, given, field.inType);
      Some([PyEntry(field.pythonName, v)])
    case None => Missing(field)
  }

  /** A field that is not given: its default, nothing, or an error. */
  function Missing(field: InputField): Option<seq<PyEntry>> {
    if field.default.Some? then Some([PyEntry(field.pythonName, field.default.value)])
    else if field.inType.NonNullIn? then None
    else Some([])
  }

  function Built(w: World, name: string, result: seq<PyEntry>): Option<Py>
    requires name in w.inputs
  {
    if !w.inputs[name].constructed then Some(PyDict(result))
    else
      var id :- w.construct(name, result);
      Some(PyObject(id))
  }

  // ----- literals ----------------------------------------------------------------------------------------

  function LookUpNode(fields: seq<ObjectField>, name: string): Option<Value> {
    if fields == [] then None
    else if LookUpNode(fields[1..], name).Some? then LookUpNode(fields[1..], name)
    else if fields[0].name == name then Some(fields[0].value) else None
  }

  lemma {:induction false} LookedUpNode(fields: seq<ObjectField>, name: string)
    ensures LookUpNode(fields, name).Some? ==> ObjectField(name, LookUpNode(fields, name).value) in fields
  {
    if fields != [] { LookedUpNode(fields[1..], name); }
  }

  function VariableValue(name: string, variables: map<string, Py>): Py {
    if name in variables then variables[name] else PyNone
  }

  /** `value_from_ast`; a variable's value is returned before any check. */
  function ValueFromAst(w: World, node: Value, t: InType, variables: map<string, Py>): Option<Py>
    decreases node, t, 0
  {
    if node.Variable? then Some(VariableValue(node.name, variables))
    else
      match t
      case NonNullIn(u) =>
        var value :- ValueFromAst(w, node, u, variables);
        if value.PyNone? then None else Some(value)
      case ListIn(u) =>
        if node.NullValue? then Some(PyNone)
        else if node.ListValue? then
          var items :- ItemsFromAst(w, node.items, u, variables);
          Some(PyList(items))
        else
          var item :- ValueFromAst(w, node, u, variables);
          Some(PyList([item]))
      case EnumIn(values) =>
        if node.NullValue? then Some(PyNone) else if node.EnumValue? && node.name in values then Some(values[node.name])
        else None
      case InputIn(name) =>
        if node.NullValue? then Some(PyNone)
        else if name !in w.inputs then Some(PyNone)
        else if !node.ObjectValue? then None
        else
          var result :- FieldsFromAst(w, node.fields, w.inputs[name].fields, variables);
          Built(w, name, result)
      case _ => if node.NullValue? then Some(PyNone) else ParseLiteral(w, t, node)
  }

  function ItemsFromAst(w: World, items: seq<Value>, t: InType, variables: map<string, Py>): Option<seq<Py>>
    decreases items, t, 1
  {
    if items == [] then Some([])
    else
      var first :- ValueFromAst(w, items[0], t, variables);
      var rest :- ItemsFromAst(w, items[1..], t, variables);
      Some([first] + rest)
  }

  /** `_input_object_from_ast`'s loop. */
  function FieldsFromAst(w: World, given: seq<ObjectField>, fields: seq<InputField>, variables: map<string,
      Py>): Option<seq<PyEntry>>
    decreases given, 1 + |fields|
  {
    if fields == [] then Some([])
    else
      var front :- FieldsFromAst(w, given, fields[..|fields| - 1], variables);
      var last :- FieldFromAst(w, given, fields[|fields| - 1], variables);
      Some(front + last)
  }

  function FieldFromAst(w: World, given: seq<ObjectField>, field: InputField, variables: map<string,
      Py>): Option<seq<PyEntry>>
    decreases given, 0
  {
    LookedUpNode(given, field.name);
    match LookUpNode(given, field.name)
    case Some(node) =>
      var v :- ValueFromAst(w, node, field.inType, variables);
      Some([PyEntry(field.pythonName, v)])
    case None => Missing(field)
  }

  // ----- the JSON reading of a literal ----------------------------------------------------------------

  /** What a JSON reader makes of the literal written as JSON, an enum value as its name. */
  function JsonOf(w: World, node: Value): Py
    decreases node
  {
    match node
    case Variable(_) => PyNone
    case IntValue(lexeme) => PyInt(Executor.LexemeInt(lexeme))
    case FloatValue(lexeme) => PyFloat(w.nearest(LexemeReal(lexeme)))
    case StringValue(text, _) => PyStr(text)
    case BooleanValue(truth) => PyBool(truth)
    case NullValue => PyNone
    case EnumValue(name) => PyStr(name)
    case ListValue(items) => PyList(JsonItems(w, items))
    case ObjectValue(fields) => PyDict(JsonFields(w, fields))
  }

  function JsonItems(w: World, items: seq<Value>): seq<Py>
    decreases items
  {
    if items == [] then [] else [JsonOf(w, items[0])] + JsonItems(w, items[1..])
  }

  function JsonFields(w: World, fields: seq<ObjectField>): seq<PyEntry>
    decreases fields
  {
    if fields == [] then [] else [PyEntry(fields[0].name, JsonOf(w, fields[0].value))] + JsonFields(w, fields[1..])
  }

  lemma {:induction false} LookUpJson(w: World, fields: seq<ObjectField>, name: string)
    ensures var node := LookUpNode(fields, name);
            LookUp(JsonFields(w, fields), name) == if node.None? then None else Some(JsonOf(w, node.value))
  {
    if fields != [] { LookUpJson(w, fields[1..], name); }
  }

  // ----- lexemes -----------------------------------------------------------------------------------------

  /** The text is one integer token of the lexer. */
  predicate IntLexeme(x: string) { x != "" && NumberAt(x, 0) == Some(Lexeme(Int(x), 0, |x|)) }

  lemma IntLexemeShape(x: string)
    requires IntLexeme(x)
    ensures var digits := if x[0] == '-' then x[1..] else x;
            digits != "" && AllDecimal(digits) && (|digits| > 1 ==> digits[0] != '0')
  {
    var sign := if x[0] == '-' then 1 else 0;
    assert IntegerEnd(x, sign) == Some(|x|);
    var digits := if x[0] == '-' then x[1..] else x;
    assert digits == x[sign..];
    if !Holds(x, sign, '0') { assert DigitsEnd(x, sign) == |x|; }
  }

  predicate AllDecimal(digits: string) { forall c <- digits :: IsDecimal(c) }

  lemma DigitsAppend(front: string, c: char)
    requires IsDecimal(c)
    ensures Executor.DigitsValue(front + [c]) == 10 * Executor.DigitsValue(front) + (c as int - '0' as int)
  {
    assert (front + [c])[..|front|] == front;
  }

  lemma {:induction false} DigitsCanonical(digits: string)
    requires digits != "" && AllDecimal(digits) && (|digits| > 1 ==> digits[0] != '0')
    ensures Executor.DigitsValue(digits) >= 0 && DecimalNat(Executor.DigitsValue(digits)) == digits
    ensures if digits[0] == '0' then Executor.DigitsValue(digits) == 0 else Executor.DigitsValue(digits) >= 1
    decreases |digits|
  {
    var front, c := digits[..|digits| - 1], digits[|digits| - 1];
    assert digits == front + [c];
    assert c in digits && forall x <- front :: x in digits;
    DigitsAppend(front, c);
    if front == "" {
      assert digits == [c] && Executor.DigitsValue(front) == 0;
    } else {
      assert front[0] == digits[0] != '0';
      DigitsCanonical(front);
      DecimalStep(Executor.DigitsValue(front), c as int - '0' as int);
    }
  }

  lemma DecimalStep(a: nat, d: nat)
    requires a >= 1 && d < 10
    ensures DecimalNat(10 * a + d) == DecimalNat(a) + [DecimalChar(d)]
  {
    assert (10 * a + d) / 10 == a && (10 * a + d) % 10 == d;
  }

  /** An integer token is what `str` makes of its value, except for `-0`. */
  lemma CanonicalExactly(x: string)
    requires IntLexeme(x)
    ensures Decimal(Executor.LexemeInt(x)) == x <==> x != "-0"
  {
    IntLexemeShape(x);
    var digits := if x[0] == '-' then x[1..] else x;
    DigitsCanonical(digits);
    if x[0] == '-' {
      assert x == "-" + digits;
    } else {
      assert digits[0] in digits;
    }
  }

  lemma {:induction false} NoMark(x: string, a: char, b: char)
    requires a !in x && b !in x
    ensures Find(x, a, b) == |x|
  {
  }

  /** An integer token denotes the same number for Int and for Float. */
  lemma IntIsReal(x: string)
    requires IntLexeme(x)
    ensures LexemeReal(x) == Executor.LexemeInt(x) as real
  {
    IntLexemeShape(x);
    forall c <- x ensures IsDecimal(c) || c == '-' {
      if x[0] == '-' {
        var i :| 0 <= i < |x| && x[i] == c;
        assert i > 0 ==> c == x[1..][i - 1];
      }
    }
    NoMark(x, 'e', 'E');
    NoMark(x, '.', '.');
  }

  // ----- agreement ----------------------------------------------------------------------------------------

  predicate VariableFree(node: Value)
    decreases node
  {
    match node
    case Variable(_) => false
    case ListValue(items) => forall i <- items :: VariableFree(i)
    case ObjectValue(fields) => forall f <- fields :: VariableFree(f.value)
    case _ => true
  }

  /** Integer literals are the lexer's. */
  predicate Lexed(node: Value)
    decreases node
  {
    match node
    case IntValue(lexeme) => IntLexeme(lexeme)
    case ListValue(items) => forall i <- items :: Lexed(i)
    case ObjectValue(fields) => forall f <- fields :: Lexed(f.value)
    case _ => true
  }

  /** The literal `-0` stands where an ID is expected. */
  predicate MinusZeroId(w: World, node: Value, t: InType)
    decreases node, t
  {
    match t
    case NonNullIn(u) => MinusZeroId(w, node, u)
    case ListIn(u) =>
      if node.ListValue? then exists i <- node.items :: MinusZeroId(w, i, u) else MinusZeroId(w, node, u)
    case IdIn => node == IntValue("-0")
    case InputIn(name) =>
      name in w.inputs && node.ObjectValue?
      && exists f <- node.fields, d <- w.inputs[name].fields :: f.name == d.name && MinusZeroId(w, f.value, d.inType)
    case _ => false
  }

  /** Alone, an ID's literal and its JSON reading agree exactly when the literal is not `-0`. */
  lemma IdAgreesExactly(w: World, lexeme: string)
    requires IntLexeme(lexeme)
    ensures CoerceInput(w, JsonOf(w, IntValue(lexeme)), IdIn) == ValueFromAst(w, IntValue(lexeme), IdIn, map[])
            <==> lexeme != "-0"
  {
    var n := Executor.LexemeInt(lexeme);
    CanonicalExactly(lexeme);
    assert JsonOf(w, IntValue(lexeme)) == PyInt(n) && ParseValue(w, IdIn, PyInt(n)) == Some(PyStr(Decimal(n)));
    assert ParseLiteral(w, IdIn, IntValue(lexeme)) == Some(PyStr(lexeme));
  }

  lemma ScalarsAgree(w: World, node: Value, t: InType)
    requires IsScalar(t) && Lexed(node) && !(t.IdIn? && node == IntValue("-0")) && ParseLiteral(w, t, node).Some?
    ensures ParseValue(w, t, JsonOf(w, node)) == ParseLiteral(w, t, node) && !JsonOf(w, node).PyNone?
  {
    if node.IntValue? {
      CanonicalExactly(node.lexeme);
      IntIsReal(node.lexeme);
    }
  }

  /** The two coercions agree: when a variable-free literal coerces, its JSON reading coerces to the same
      value, unless the literal `-0` stands where an ID is expected. */
  lemma {:induction false} CoercionsAgree(w: World, node: Value, t: InType, variables: map<string, Py>)
    requires VariableFree(node) && Lexed(node) && !MinusZeroId(w, node, t)
    requires ValueFromAst(w, node, t, variables).Some?
    requires KnownInputs(w, t)
    ensures CoerceInput(w, JsonOf(w, node), t) == ValueFromAst(w, node, t, variables)
    decreases node, t, 0
  {
    match t
    case NonNullIn(u) => CoercionsAgree(w, node, u, variables);
    case ListIn(u) =>
      if node.ListValue? {
        ItemsAgree(w, node.items, u, variables);
      } else if !node.NullValue? {
        CoercionsAgree(w, node, u, variables);
      }
    case EnumIn(values) =>
    case InputIn(name) =>
      if !node.NullValue? { FieldsAgree(w, node.fields, name, w.inputs[name].fields, variables); }
    case _ => if !node.NullValue? { ScalarsAgree(w, node, t); }
  }

  /** Every input object type mentioned is there. */
  predicate KnownInputs(w: World, t: InType) {
    && (Innermost(t).InputIn? ==> Innermost(t).name in w.inputs)
    && forall name <- w.inputs, f <- w.inputs[name].fields :: Innermost(f.inType).InputIn? ==>
         Innermost(f.inType).name in w.inputs
  }

  function Innermost(t: InType): InType {
    match t
    case NonNullIn(u) => Innermost(u)
    case ListIn(u) => Innermost(u)
    case _ => t
  }

  lemma {:induction false} ItemsAgree(w: World, items: seq<Value>, t: InType, variables: map<string, Py>)
    requires KnownInputs(w, t)
    requires forall i <- items :: VariableFree(i) && Lexed(i) && !MinusZeroId(w, i, t)
    requires ItemsFromAst(w, items, t, variables).Some?
    ensures CoerceItems(w, JsonItems(w, items), t) == ItemsFromAst(w, items, t, variables)
    decreases items, t, 1
  {
    if items != [] {
      CoercionsAgree(w, items[0], t, variables);
      ItemsAgree(w, items[1..], t, variables);
    }
  }

  lemma {:induction false} FieldsAgree(w: World, given: seq<ObjectField>, name: string, fields: seq<InputField>,
      variables: map<string, Py>)
    requires VariableFree(ObjectValue(given)) && Lexed(ObjectValue(given))
    requires name in w.inputs && !MinusZeroId(w, ObjectValue(given), InputIn(name))
    requires KnownInputs(w, InputIn(name)) && forall f <- fields :: f in w.inputs[name].fields
    requires FieldsFromAst(w, given, fields, variables).Some?
    ensures CoerceFields(w, JsonFields(w, given), fields) == FieldsFromAst(w, given, fields, variables)
    decreases given, 1 + |fields|
  {
    if fields != [] {
      FieldsAgree(w, given, name, fields[..|fields| - 1], variables);
      var field := fields[|fields| - 1];
      assert field in w.inputs[name].fields;
      LookUpJson(w, given, field.name);
      LookedUpNode(given, field.name);
      var node := LookUpNode(given, field.name);
      if node.Some? {
        assert ObjectField(field.name, node.value) in given;
        CoercionsAgree(w, node.value, field.inType, variables);
      }
    }
  }

  // ----- no null where none may be -----------------------------------------------------------------------

  /** No null at a non-null position of the type. */
  predicate Conforms(w: World, v: Py, t: InType)
    decreases v, t
  {
    match t
    case NonNullIn(u) => !v.PyNone? && Conforms(w, v, u)
    case ListIn(u) => v.PyList? ==> forall i <- v.items :: Conforms(w, i, u)
    case InputIn(name) =>
      v.PyDict? && name in w.inputs ==>
        forall e <- v.entries ::
          exists f <- w.inputs[name].fields ::
            f.pythonName == e.key && Conforms(w, e.value, f.inType)
    case _ => true
  }

  predicate DefaultsConform(w: World) {
    forall name <- w.inputs, f <- w.inputs[name].fields :: f.default.Some? ==> Conforms(w, f.default.value, f.inType)
  }

  predicate EntryConforms(w: World, e: PyEntry, fields: seq<InputField>) {
    exists f <- fields :: f.pythonName == e.key && Conforms(w, e.value, f.inType)
  }

  /** Every variable whose value comes into the result has one that conforms to the type of its position.
      Of a field given twice the last counts; what a constructed type is built from is `FieldsFit`. */
  predicate VariablesFit(w: World, node: Value, t: InType, variables: map<string, Py>)
    decreases node, t, 0
  {
    if node.Variable? then Conforms(w, VariableValue(node.name, variables), t)
    else if node.NullValue? then true
    else
      match t
      case NonNullIn(u) => VariablesFit(w, node, u, variables)
      case ListIn(u) =>
        if node.ListValue? then forall i <- node.items :: VariablesFit(w, i, u, variables)
        else VariablesFit(w, node, u, variables)
      case InputIn(name) =>
        name in w.inputs && !w.inputs[name].constructed && node.ObjectValue? ==>
          FieldsFit(w, node.fields, w.inputs[name].fields, variables)
      case _ => true
  }

  predicate FieldsFit(w: World, given: seq<ObjectField>, fields: seq<InputField>, variables: map<string, Py>)
    decreases given, 1
  {
    forall f <- fields :: FieldFits(w, given, f, variables)
  }

  predicate FieldFits(w: World, given: seq<ObjectField>, field: InputField, variables: map<string, Py>)
    decreases given, 0
  {
    LookedUpNode(given, field.name);
    var node := LookUpNode(given, field.name);
    node.Some? ==> VariablesFit(w, node.value, field.inType, variables)
  }

  /** No two fields of an input object type go by one Python name. */
  predicate DistinctNames(w: World) {
    forall name <- w.inputs, f <- w.inputs[name].fields, g <- w.inputs[name].fields ::
      f.pythonName == g.pythonName ==> f == g
  }

  /** A literal coerces to a value without a null at a non-null position, if its variables and the defaults
      have none. */
  lemma {:induction false} FittingConforms(w: World, node: Value, t: InType, variables: map<string, Py>)
    requires VariablesFit(w, node, t, variables) && DefaultsConform(w) && ValueFromAst(w, node, t, variables).Some?
    ensures Conforms(w, ValueFromAst(w, node, t, variables).value, t)
    decreases node, t, 0
  {
    if !node.Variable? && !node.NullValue? {
      match t
      case NonNullIn(u) => FittingConforms(w, node, u, variables);
      case ListIn(u) =>
        if node.ListValue? {
          ItemsConform(w, node.items, u, variables);
        } else {
          FittingConforms(w, node, u, variables);
        }
      case InputIn(name) =>
        if name in w.inputs && !w.inputs[name].constructed {
          FieldsConform(w, node.fields, name, w.inputs[name].fields, variables);
        }
      case _ =>
    } else if t.NonNullIn? && node.NullValue? {
      NullStays(w, t.ofType, variables);
    }
  }

  /** The null literal coerces to null or not at all. */
  lemma {:induction false} NullStays(w: World, t: InType, variables: map<string, Py>)
    ensures ValueFromAst(w, NullValue, t, variables) == if t.NonNullIn? then None else Some(PyNone)
  {
    if t.NonNullIn? { NullStays(w, t.ofType, variables); }
  }

  lemma {:induction false} ItemsConform(w: World, items: seq<Value>, t: InType, variables: map<string, Py>)
    requires (forall i <- items :: VariablesFit(w, i, t, variables)) && DefaultsConform(w)
    requires ItemsFromAst(w, items, t, variables).Some?
    ensures forall v <- ItemsFromAst(w, items, t, variables).value :: Conforms(w, v, t)
    decreases items, t, 1
  {
    if items != [] {
      FittingConforms(w, items[0], t, variables);
      ItemsConform(w, items[1..], t, variables);
    }
  }

  lemma {:induction false} FieldsConform(
    w: World, given: seq<ObjectField>, name: string, fields: seq<InputField>, variables: map<string, Py>)
    requires FieldsFit(w, given, fields, variables) && DefaultsConform(w) && name in w.inputs
    requires forall f <- fields :: f in w.inputs[name].fields
    requires FieldsFromAst(w, given, fields, variables).Some?
    ensures forall e <- FieldsFromAst(w, given, fields, variables).value ::
              EntryConforms(w, e, w.inputs[name].fields)
    decreases given, 1 + |fields|
  {
    if fields != [] {
      FieldsConform(w, given, name, fields[..|fields| - 1], variables);
      var field := fields[|fields| - 1];
      assert field in w.inputs[name].fields && FieldFits(w, given, field, variables);
      LookedUpNode(given, field.name);
      var node := LookUpNode(given, field.name);
      if node.Some? { FittingConforms(w, node.value, field.inType, variables); }
    }
  }

  /** The other way: a value without a null at a non-null position came of variables without one. */
  lemma {:induction false} ConformingFits(w: World, node: Value, t: InType, variables: map<string, Py>)
    requires DistinctNames(w) && ValueFromAst(w, node, t, variables).Some?
    requires Conforms(w, ValueFromAst(w, node, t, variables).value, t)
    ensures VariablesFit(w, node, t, variables)
    decreases node, t, 0
  {
    if !node.Variable? && !node.NullValue? {
      match t
      case NonNullIn(u) => ConformingFits(w, node, u, variables);
      case ListIn(u) =>
        if node.ListValue? {
          ConformingItemsFit(w, node.items, u, variables);
        } else {
          var item := ValueFromAst(w, node, u, variables).value;
          assert item in [item];
          ConformingFits(w, node, u, variables);
        }
      case InputIn(name) =>
        if name in w.inputs && !w.inputs[name].constructed && node.ObjectValue? {
          ConformingFieldsFit(w, node.fields, name, w.inputs[name].fields, variables);
        }
      case _ =>
    }
  }

  lemma {:induction false} ConformingItemsFit(w: World, items: seq<Value>, t: InType, variables: map<string, Py>)
    requires DistinctNames(w) && ItemsFromAst(w, items, t, variables).Some?
    requires forall v <- ItemsFromAst(w, items, t, variables).value :: Conforms(w, v, t)
    ensures forall i <- items :: VariablesFit(w, i, t, variables)
    decreases items, t, 1
  {
    if items != [] {
      var all, rest := ItemsFromAst(w, items, t, variables).value, ItemsFromAst(w, items[1..], t, variables).value;
      assert all[0] in all && forall v <- rest :: v in all;
      ConformingFits(w, items[0], t, variables);
      ConformingItemsFit(w, items[1..], t, variables);
    }
  }

  lemma {:induction false} ConformingFieldsFit(
    w: World, given: seq<ObjectField>, name: string, fields: seq<InputField>, variables: map<string, Py>)
    requires DistinctNames(w) && name in w.inputs && forall f <- fields :: f in w.inputs[name].fields
    requires FieldsFromAst(w, given, fields, variables).Some?
    requires forall e <- FieldsFromAst(w, given, fields, variables).value ::
               EntryConforms(w, e, w.inputs[name].fields)
    ensures FieldsFit(w, given, fields, variables)
    decreases given, 1 + |fields|
  {
    if fields != [] {
      var less, field := fields[..|fields| - 1], fields[|fields| - 1];
      var all, front := FieldsFromAst(w, given, fields, variables).value,
          FieldsFromAst(w, given, less, variables).value;
      var last := FieldFromAst(w, given, field, variables).value;
      assert all == front + last && (forall e <- front :: e in all) && forall e <- last :: e in all;
      ConformingFieldsFit(w, given, name, less, variables);
      LookedUpNode(given, field.name);
      var node := LookUpNode(given, field.name);
      if node.Some? {
        EntryFits(w, last[0], name, field);
        ConformingFits(w, node.value, field.inType, variables);
      }
      assert forall f <- fields :: f in less || f == field;
    }
  }

  lemma EntryFits(w: World, e: PyEntry, name: string, field: InputField)
    requires DistinctNames(w) && name in w.inputs && field in w.inputs[name].fields
    requires e.key == field.pythonName && EntryConforms(w, e, w.inputs[name].fields)
    ensures Conforms(w, e.value, field.inType)
  {
  }

  /** A literal coerces to a value without a null at a non-null position exactly when its variables have none. */
  lemma ConformsExactly(w: World, node: Value, t: InType, variables: map<string, Py>)
    requires DefaultsConform(w) && DistinctNames(w) && ValueFromAst(w, node, t, variables).Some?
    ensures Conforms(w, ValueFromAst(w, node, t, variables).value, t) <==> VariablesFit(w, node, t, variables)
  {
    if VariablesFit(w, node, t, variables) {
      FittingConforms(w, node, t, variables);
    } else if Conforms(w, ValueFromAst(w, node, t, variables).value, t) {
      ConformingFits(w, node, t, variables);
    }
  }

  /** The same of the fields that an input object, constructed or not, is made of. */
  lemma FieldsConformExactly(w: World, given: seq<ObjectField>, name: string, variables: map<string, Py>)
    requires DefaultsConform(w) && DistinctNames(w) && name in w.inputs
    requires FieldsFromAst(w, given, w.inputs[name].fields, variables).Some?
    ensures (forall e <- FieldsFromAst(w, given, w.inputs[name].fields, variables).value ::
               EntryConforms(w, e, w.inputs[name].fields))
            <==> FieldsFit(w, given, w.inputs[name].fields, variables)
  {
    if FieldsFit(w, given, w.inputs[name].fields, variables) {
      FieldsConform(w, given, name, w.inputs[name].fields, variables);
    } else if forall e <- FieldsFromAst(w, given, w.inputs[name].fields, variables).value ::
                EntryConforms(w, e, w.inputs[name].fields) {
      ConformingFieldsFit(w, given, name, w.inputs[name].fields, variables);
    }
  }

  lemma {:induction false} VariableFreeFits(w: World, node: Value, t: InType, variables: map<string, Py>)
    requires VariableFree(node)
    ensures VariablesFit(w, node, t, variables)
    decreases node, t
  {
    match t
    case NonNullIn(u) => VariableFreeFits(w, node, u, variables);
    case ListIn(u) =>
      if node.ListValue? {
        forall i <- node.items ensures VariablesFit(w, i, u, variables) { VariableFreeFits(w, i, u, variables); }
      } else {
        VariableFreeFits(w, node, u, variables);
      }
    case InputIn(name) =>
      if name in w.inputs && node.ObjectValue? {
        forall f <- w.inputs[name].fields ensures FieldFits(w, node.fields, f, variables) {
          LookedUpNode(node.fields, f.name);
          var given := LookUpNode(node.fields, f.name);
          if given.Some? {
            assert ObjectField(f.name, given.value) in node.fields;
            VariableFreeFits(w, given.value, f.inType, variables);
          }
        }
      }
    case _ =>
  }

  /** A variable-free literal coerces to a value without a null at a non-null position, if defaults have none. */
  lemma LiteralConforms(w: World, node: Value, t: InType, variables: map<string, Py>)
    requires VariableFree(node) && DefaultsConform(w) && ValueFromAst(w, node, t, variables).Some?
    ensures Conforms(w, ValueFromAst(w, node, t, variables).value, t)
  {
    VariableFreeFits(w, node, t, variables);
    FittingConforms(w, node, t, variables);
  }

  /** With a variable the check for null is skipped. */
  lemma VariableSkipsNonNull(w: World)
    ensures ValueFromAst(w, Variable("x"), NonNullIn(IntIn), map["x" := PyNone]) == Some(PyNone)
  {
  }

  // ----- the loops that fill dictionaries ------------------------------------------------------------------

  lemma {:induction false} FieldsFail(w: World, entries: seq<PyEntry>, fields: seq<InputField>, i: nat)
    requires i <= |fields| && CoerceFields(w, entries, fields[..i]).None?
    ensures CoerceFields(w, entries, fields).None?
    decreases |fields|
  {
    if i < |fields| {
      assert fields[..|fields| - 1][..i] == fields[..i];
      FieldsFail(w, entries, fields[..|fields| - 1], i);
    } else {
      assert fields[..i] == fields;
    }
  }

  /** `_coerce_input_object`. */
  method CoerceInputObject(w: World, entries: seq<PyEntry>, name: string) returns (r: Option<Py>)
    requires name in w.inputs
    ensures r == CoerceInput(w, PyDict(entries), InputIn(name))
  {
    var fields := w.inputs[name].fields;
    var result: seq<PyEntry> := [];
    for i := 0 to |fields|
      invariant CoerceFields(w, entries, fields[..i]) == Some(result)
    {
      assert fields[..i + 1][..i] == fields[..i];
      var field := fields[i];
      var given := LookUp(entries, field.name);
      if given.Some? {
        var v := CoerceInput(w, given.value, field.inType);
        if v.None? {
          FieldsFail(w, entries, fields, i + 1);
          return None;
        }
        result := result + [PyEntry(field.pythonName, v.value)];
      } else if field.default.Some? {
        result := result + [PyEntry(field.pythonName, field.default.value)];
      } else if field.inType.NonNullIn? {
        FieldsFail(w, entries, fields, i + 1);
        return None;
      } else {
        assert result + [] == result;
      }
    }
    assert fields[..|fields|] == fields;
    r := Built(w, name, result);
  }

  lemma {:induction false} LiteralFieldsFail(w: World, given: seq<ObjectField>, fields: seq<InputField>, i: nat,
      variables: map<string, Py>)
    requires i <= |fields| && FieldsFromAst(w, given, fields[..i], variables).None?
    ensures FieldsFromAst(w, given, fields, variables).None?
    decreases |fields|
  {
    if i < |fields| {
      assert fields[..|fields| - 1][..i] == fields[..i];
      LiteralFieldsFail(w, given, fields[..|fields| - 1], i, variables);
    } else {
      assert fields[..i] == fields;
    }
  }

  /** `_input_object_from_ast`. */
  method InputObjectFromAst(w: World, given: seq<ObjectField>, name: string, variables: map<string, Py>)
    returns (r: Option<Py>)
    requires name in w.inputs
    ensures r == ValueFromAst(w, ObjectValue(given), InputIn(name), variables)
  {
    var fields := w.inputs[name].fields;
    var result: seq<PyEntry> := [];
    for i := 0 to |fields|
      invariant FieldsFromAst(w, given, fields[..i], variables) == Some(result)
    {
      assert fields[..i + 1][..i] == fields[..i];
      var field := fields[i];
      var node := LookUpNode(given, field.name);
      if node.Some? {
        var v := ValueFromAst(w, node.value, field.inType, variables);
        if v.None? {
          LiteralFieldsFail(w, given, fields, i + 1, variables);
          return None;
        }
        result := result + [PyEntry(field.pythonName, v.value)];
      } else if field.default.Some? {
        result := result + [PyEntry(field.pythonName, field.default.value)];
      } else if field.inType.NonNullIn? {
        LiteralFieldsFail(w, given, fields, i + 1, variables);
        return None;
      } else {
        assert result + [] == result;
      }
    }
    assert fields[..|fields|] == fields;
    r := Built(w, name, result);
  }
}
