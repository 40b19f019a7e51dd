/** The tokens each syntax node stands for, which nodes the grammar can express, and the proof that the
    parser and this reading of the grammar are inverse to each other. */
module Grammar {
  import opened Ast
  import opened Lexer
  import opened Parser

  // ----- the tokens of a node, followed by `rest` ----------------------------------------------

  function ValueThen(v: Value, rest: Stream): Stream
    decreases v
  {
    match v
    case Variable(name) => Put(Dollar, Put(Name(name), rest))
    case IntValue(lexeme) => Put(Int(lexeme), rest)
    case FloatValue(lexeme) => Put(Float(lexeme), rest)
    case StringValue(text, block) => Put(if block then BlockStr(text) else Str(text), rest)
    case BooleanValue(truth) => Put(Name(if truth then "true" else "false"), rest)
    case NullValue => Put(Name("null"), rest)
    case EnumValue(name) => Put(Name(name), rest)
    case ListValue(items) => Put(BracketL, ValuesThen(items, rest))
    case ObjectValue(fields) => Put(BraceL, ObjectFieldsThen(fields, rest))
  }

  /** The items and the closing bracket. */
  function ValuesThen(items: seq<Value>, rest: Stream): Stream
    decreases items
  {
    if items == [] then Put(BracketR, rest) else ValueThen(items[0], ValuesThen(items[1..], rest))
  }

  /** The fields and the closing brace. */
  function ObjectFieldsThen(fields: seq<ObjectField>, rest: Stream): Stream
    decreases fields
  {
    if fields == [] then Put(BraceR, rest)
    else Put(Name(fields[0].name), Put(Colon, ValueThen(fields[0].value, ObjectFieldsThen(fields[1..], rest))))
  }

  function ArgumentThen(a: Argument, rest: Stream): Stream {
    Put(Name(a.name), Put(Colon, ValueThen(a.value, rest)))
  }

  function MoreArgumentsThen(arguments: seq<Argument>, rest: Stream): Stream {
    if arguments == [] then Put(ParenR, rest) else ArgumentThen(arguments[0], MoreArgumentsThen(arguments[1..], rest))
  }

  function ArgumentsThen(arguments: seq<Argument>, rest: Stream): Stream {
    if arguments == [] then rest else Put(ParenL, MoreArgumentsThen(arguments, rest))
  }

  function DirectiveThen(d: Directive, rest: Stream): Stream {
    Put(At, Put(Name(d.name), ArgumentsThen(d.arguments, rest)))
  }

  function DirectivesThen(directives: seq<Directive>, rest: Stream): Stream {
    if directives == [] then rest else DirectiveThen(directives[0], DirectivesThen(directives[1..], rest))
  }

  function TypeThen(t: TypeRef, rest: Stream): Stream
    decreases t
  {
    match t
    case NamedType(name) => Put(Name(name), rest)
    case ListType(u) => Put(BracketL, TypeThen(u, Put(BracketR, rest)))
    case NonNull(u) => TypeThen(u, Put(Bang, rest))
  }

  function SelectionThen(s: Selection, rest: Stream): Stream
    decreases s, 0
  {
    match s
    case Field(name, alias, arguments, directives, sub) =>
      FieldNameThen(alias, name, ArgumentsThen(arguments, DirectivesThen(directives,
        if sub.SelectionSet? then SelectionSetThen(sub.selections, rest) else rest)))
    case FragmentSpread(name, directives) => Put(Spread, Put(Name(name), DirectivesThen(directives, rest)))
    case InlineFragment(condition, directives, selections) =>
      Put(Spread, ConditionThen(condition, DirectivesThen(directives, SelectionSetThen(selections, rest))))
  }

  function FieldNameThen(alias: Option<string>, name: string, rest: Stream): Stream {
    if alias.None? then Put(Name(name), rest) else Put(Name(alias.value), Put(Colon, Put(Name(name), rest)))
  }

  function ConditionThen(condition: Option<string>, rest: Stream): Stream {
    if condition.None? then rest else Put(Name("on"), Put(Name(condition.value), rest))
  }

  function SelectionSetThen(selections: seq<Selection>, rest: Stream): Stream
    decreases selections, 1
  {
    Put(BraceL, MoreSelectionsThen(selections, rest))
  }

  function MoreSelectionsThen(selections: seq<Selection>, rest: Stream): Stream
    decreases selections, 0
  {
    if selections == [] then Put(BraceR, rest)
    else SelectionThen(selections[0], MoreSelectionsThen(selections[1..], rest))
  }

  function DefaultThen(default: Option<Value>, rest: Stream): Stream {
    if default.None? then rest else Put(Equals, ValueThen(default.value, rest))
  }

  function VariableDefinitionThen(v: VariableDefinition, rest: Stream): Stream {
    Put(Dollar, Put(Name(v.name), Put(Colon, TypeThen(v.varType,
        DefaultThen(v.default, DirectivesThen(v.directives, rest))))))
  }

  function MoreVariablesThen(variables: seq<VariableDefinition>, rest: Stream): Stream {
    if variables == [] then Put(ParenR, rest)
    else VariableDefinitionThen(variables[0], MoreVariablesThen(variables[1..], rest))
  }

  function VariablesThen(variables: seq<VariableDefinition>, rest: Stream): Stream {
    if variables == [] then rest else Put(ParenL, MoreVariablesThen(variables, rest))
  }

  function OptionalNameThen(name: Option<string>, rest: Stream): Stream {
    if name.None? then rest else Put(Name(name.value), rest)
  }

  /** Nothing but a selection set: the query shorthand. */
  predicate IsShorthand(d: Definition) {
    d.Operation? && d.operation == "query" && d.name == None && d.variables == [] && d.directives == []
  }

  function DefinitionThen(d: Definition, rest: Stream): Stream {
    match d
    case Operation(operation, name, variables, directives, selections) =>
      if IsShorthand(d) then SelectionSetThen(selections, rest)
      else Put(Name(operation), OptionalNameThen(name, VariablesThen(variables, DirectivesThen(directives,
             SelectionSetThen(selections, rest)))))
    case Fragment(name, condition, directives, selections) =>
      Put(Name("fragment"), Put(Name(name), Put(Name("on"), Put(Name(condition),
        DirectivesThen(directives, SelectionSetThen(selections, rest))))))
  }

  /** All definitions and the end of the file. */
  function DefinitionsThen(definitions: seq<Definition>, rest: Stream): Stream {
    if definitions == [] then rest else DefinitionThen(definitions[0], DefinitionsThen(definitions[1..], rest))
  }

  // ----- what the grammar can express ---------------------------------------------------------------

  predicate ValueOk(v: Value, isConst: bool)
    decreases v
  {
    match v
    case Variable(_) => !isConst
    case EnumValue(name) => name != "true" && name != "false" && name != "null"
    case ListValue(items) => forall i <- items :: ValueOk(i, isConst)
    case ObjectValue(fields) => forall f <- fields :: ValueOk(f.value, isConst)
    case _ => true
  }

  predicate ArgumentsOk(arguments: seq<Argument>, isConst: bool) { forall a <- arguments :: ValueOk(a.value, isConst) }

  predicate DirectivesOk(directives: seq<Directive>, isConst: bool) {
    forall d <- directives :: ArgumentsOk(d.arguments, isConst)
  }

  predicate TypeOk(t: TypeRef) {
    match t
    case NamedType(_) => true
    case ListType(u) => TypeOk(u)
    case NonNull(u) => !u.NonNull? && TypeOk(u)
  }

  predicate SelectionOk(s: Selection)
    decreases s, 0
  {
    match s
    case Field(_, _, arguments, directives, sub) =>
      ArgumentsOk(arguments, false) && DirectivesOk(directives, false)
          && (sub.SelectionSet? ==> SelectionSetOk(sub.selections))
    case FragmentSpread(name, directives) => name != "on" && DirectivesOk(directives, false)
    case InlineFragment(_, directives, selections) => DirectivesOk(directives, false) && SelectionSetOk(selections)
  }

  predicate SelectionSetOk(selections: seq<Selection>)
    decreases selections, 1
  {
    selections != [] && forall s <- selections :: SelectionOk(s)
  }

  predicate VariableOk(v: VariableDefinition) {
    TypeOk(v.varType) && (v.default.Some? ==> ValueOk(v.default.value, true)) && DirectivesOk(v.directives, true)
  }

  predicate DefinitionOk(d: Definition) {
    && DirectivesOk(d.directives, false) && SelectionSetOk(d.selections)
    && (d.Operation? ==> IsOperationType(d.operation) && forall v <- d.variables :: VariableOk(v))
    && (d.Fragment? ==> d.fragmentName != "on")
  }

  /** What can be parsed: at least one definition, each expressible. */
  predicate DocumentOk(d: Document) { d.definitions != [] && forall x <- d.definitions :: DefinitionOk(x) }

  // ----- every expressible node is parsed back from its tokens ----------------------------------------

  /** A token follows. */
  predicate Ready(rest: Stream) { !rest.head.Invalid? }

  /** What follows does not prolong the node before it. */
  predicate AfterArguments(rest: Stream) { Ready(rest) && rest.head != ParenL }

  predicate AfterDirectives(rest: Stream) { AfterArguments(rest) && rest.head != At }

  predicate AfterSelection(rest: Stream) { AfterDirectives(rest) && rest.head != Colon && rest.head != BraceL }

  predicate AfterType(rest: Stream) { Ready(rest) && rest.head != Bang }

  predicate AfterVariable(rest: Stream) { AfterDirectives(rest) && AfterType(rest) && rest.head != Equals }

  lemma {:induction false} ValueParses(v: Value, isConst: bool, rest: Stream)
    requires ValueOk(v, isConst) && Ready(rest)
    ensures Ready(ValueThen(v, rest)) && ValueThen(v, rest).head != BracketR
    ensures ParseValue(ValueThen(v, rest), isConst) == Parsed(v, rest)
    decreases v
  {
    match v
    case ListValue(items) =>
      ValuesParse(items, isConst, rest);
      ListNodeParses(items, isConst, rest);
    case ObjectValue(fields) =>
      ObjectFieldsParse(fields, isConst, rest);
      ObjectNodeParses(fields, isConst, rest);
    case Variable(_) => VariableNodeParses(v, rest);
    case _ => AtomParses(v, rest);
  }

  lemma ListNodeParses(items: seq<Value>, isConst: bool, rest: Stream)
    requires Ready(ValuesThen(items, rest)) && ParseValues(ValuesThen(items, rest), isConst) == Parsed(items, rest)
    ensures ParseValue(ValueThen(ListValue(items), rest), isConst) == Parsed(ListValue(items), rest)
  {
  }

  lemma ObjectNodeParses(fields: seq<ObjectField>, isConst: bool, rest: Stream)
    requires Ready(ObjectFieldsThen(fields, rest))
             && ParseObjectFields(ObjectFieldsThen(fields, rest), isConst) == Parsed(fields, rest)
    ensures ParseValue(ValueThen(ObjectValue(fields), rest), isConst) == Parsed(ObjectValue(fields), rest)
  {
  }

  lemma VariableNodeParses(v: Value, rest: Stream)
    requires v.Variable? && Ready(rest)
    ensures ParseVariable(ValueThen(v, rest)) == Parsed(v, rest)
  {
  }

  lemma AtomParses(v: Value, rest: Stream)
    requires !v.Variable? && !v.ListValue? && !v.ObjectValue? && ValueOk(v, true) && Ready(rest)
    ensures var ts := ValueThen(v, rest);
            Ready(ts) && ts.head !in {BracketL, BraceL, BracketR, Dollar} && ParseAtom(ts) == Parsed(v, rest)
  {
    match v
    case BooleanValue(truth) => assert "true" != "false";
    case NullValue => assert "null"[0] != "true"[0] && "null"[0] != "false"[0];
    case _ =>
  }

  lemma {:induction false} ValuesParse(items: seq<Value>, isConst: bool, rest: Stream)
    requires (forall i <- items :: ValueOk(i, isConst)) && Ready(rest)
    ensures Ready(ValuesThen(items, rest))
    ensures ParseValues(ValuesThen(items, rest), isConst) == Parsed(items, rest)
    decreases items
  {
    if items != [] {
      assert [items[0]] + items[1..] == items;
      ValuesParse(items[1..], isConst, rest);
      ValueParses(items[0], isConst, ValuesThen(items[1..], rest));
    }
  }

  lemma {:induction false} ObjectFieldsParse(fields: seq<ObjectField>, isConst: bool, rest: Stream)
    requires (forall f <- fields :: ValueOk(f.value, isConst)) && Ready(rest)
    ensures Ready(ObjectFieldsThen(fields, rest))
    ensures ParseObjectFields(ObjectFieldsThen(fields, rest), isConst) == Parsed(fields, rest)
    decreases fields
  {
    if fields != [] {
      assert [fields[0]] + fields[1..] == fields;
      var more := ObjectFieldsThen(fields[1..], rest);
      ObjectFieldsParse(fields[1..], isConst, rest);
      ValueParses(fields[0].value, isConst, more);
      assert ParseObjectField(ObjectFieldsThen(fields, rest), isConst) == Parsed(fields[0], more);
    }
  }

  lemma {:induction false} MoreArgumentsParse(arguments: seq<Argument>, isConst: bool, rest: Stream)
    requires ArgumentsOk(arguments, isConst) && Ready(rest)
    ensures Ready(MoreArgumentsThen(arguments, rest))
    ensures MoreArguments(MoreArgumentsThen(arguments, rest), isConst) == Parsed(arguments, rest)
  {
    if arguments != [] {
      assert [arguments[0]] + arguments[1..] == arguments;
      MoreArgumentsParse(arguments[1..], isConst, rest);
      ArgumentParses(arguments[0], isConst, MoreArgumentsThen(arguments[1..], rest));
    }
  }

  lemma ArgumentParses(a: Argument, isConst: bool, rest: Stream)
    requires ValueOk(a.value, isConst) && Ready(rest)
    ensures Ready(ArgumentThen(a, rest)) && ArgumentThen(a, rest).head != ParenR
    ensures ParseArgument(ArgumentThen(a, rest), isConst) == Parsed(a, rest)
  {
    ValueParses(a.value, isConst, rest);
  }

  lemma ArgumentsParse(arguments: seq<Argument>, isConst: bool, rest: Stream)
    requires ArgumentsOk(arguments, isConst) && AfterArguments(rest)
    ensures Ready(ArgumentsThen(arguments, rest)) && (arguments != [] ==> ArgumentsThen(arguments, rest).head == ParenL)
    ensures ParseArguments(ArgumentsThen(arguments, rest), isConst) == Parsed(arguments, rest)
  {
    if arguments != [] {
      assert [arguments[0]] + arguments[1..] == arguments;
      MoreArgumentsParse(arguments[1..], isConst, rest);
      ArgumentParses(arguments[0], isConst, MoreArgumentsThen(arguments[1..], rest));
    }
  }

  lemma {:induction false} DirectivesParse(directives: seq<Directive>, isConst: bool, rest: Stream)
    requires DirectivesOk(directives, isConst) && AfterDirectives(rest)
    ensures AfterArguments(DirectivesThen(directives, rest))
    ensures if directives == [] then DirectivesThen(directives, rest) == rest
            else DirectivesThen(directives, rest).head == At
    ensures ParseDirectives(DirectivesThen(directives, rest), isConst) == Parsed(directives, rest)
  {
    if directives != [] {
      assert [directives[0]] + directives[1..] == directives;
      DirectivesParse(directives[1..], isConst, rest);
      ArgumentsParse(directives[0].arguments, isConst, DirectivesThen(directives[1..], rest));
    }
  }

  lemma {:induction false} TypeParses(t: TypeRef, rest: Stream)
    requires TypeOk(t) && Ready(rest) && (t.NonNull? || AfterType(rest))
    ensures Ready(TypeThen(t, rest)) && ParseType(TypeThen(t, rest)) == Parsed(t, rest)
    ensures !t.NonNull? ==> ParseNullableType(TypeThen(t, rest)) == Parsed(t, rest)
    decreases t
  {
    match t
    case NamedType(_) =>
    case ListType(u) => TypeParses(u, Put(BracketR, rest));
    case NonNull(u) => NullableParses(u, Put(Bang, rest));
  }

  /** A nullable type is read as far as a following `!`. */
  lemma {:induction false} NullableParses(t: TypeRef, rest: Stream)
    requires TypeOk(t) && !t.NonNull? && Ready(rest)
    ensures Ready(TypeThen(t, rest)) && ParseNullableType(TypeThen(t, rest)) == Parsed(t, rest)
    decreases t
  {
    if t.ListType? { TypeParses(t.ofType, Put(BracketR, rest)); }
  }

  lemma {:induction false} SelectionSetParses(selections: seq<Selection>, rest: Stream)
    requires SelectionSetOk(selections) && Ready(rest)
    ensures ParseSelectionSet(SelectionSetThen(selections, rest)) == Parsed(selections, rest)
    decreases selections, 2
  {
    assert [selections[0]] + selections[1..] == selections;
    MoreSelectionsParse(selections[1..], rest);
    SelectionParses(selections[0], MoreSelectionsThen(selections[1..], rest));
  }

  lemma {:induction false} MoreSelectionsParse(selections: seq<Selection>, rest: Stream)
    requires (forall s <- selections :: SelectionOk(s)) && Ready(rest)
    ensures AfterSelection(MoreSelectionsThen(selections, rest))
    ensures MoreSelections(MoreSelectionsThen(selections, rest)) == Parsed(selections, rest)
    decreases selections, 1
  {
    if selections != [] {
      assert [selections[0]] + selections[1..] == selections;
      MoreSelectionsParse(selections[1..], rest);
      SelectionParses(selections[0], MoreSelectionsThen(selections[1..], rest));
    }
  }

  lemma {:induction false} SelectionParses(s: Selection, rest: Stream)
    requires SelectionOk(s) && AfterSelection(rest)
    ensures AfterSelection(SelectionThen(s, rest)) && SelectionThen(s, rest).head != BraceR
    ensures ParseSelection(SelectionThen(s, rest)) == Parsed(s, rest)
    decreases s, 0
  {
    match s
    case Field(name, alias, arguments, directives, sub) =>
      if sub.SelectionSet? { SelectionSetParses(sub.selections, rest); }
      FieldParses(s, if sub.SelectionSet? then SelectionSetThen(sub.selections, rest) else rest, rest);
    case FragmentSpread(name, directives) => SpreadParses(s, rest);
    case InlineFragment(condition, directives, selections) =>
      SelectionSetParses(selections, rest);
      InlineParses(s, SelectionSetThen(selections, rest), rest);
  }

  lemma SpreadParses(s: Selection, rest: Stream)
    requires s.FragmentSpread? && SelectionOk(s) && AfterDirectives(rest)
    ensures ParseFragment(SelectionThen(s, rest)) == Parsed(s, rest)
  {
    DirectivesParse(s.directives, false, rest);
  }

  /** An inline fragment whose own braces parse. */
  lemma InlineParses(s: Selection, body: Stream, rest: Stream)
    requires s.InlineFragment? && DirectivesOk(s.directives, false)
    requires Peek(body, BraceL) && ParseSelectionSet(body) == Parsed(s.selections, rest)
    ensures ParseFragment(Put(Spread, ConditionThen(s.condition, DirectivesThen(s.directives, body))))
            == Parsed(s, rest)
  {
    DirectivesParse(s.directives, false, body);
    ConditionParses(s.condition, DirectivesThen(s.directives, body));
  }

  lemma ConditionParses(condition: Option<string>, rest: Stream)
    requires Ready(rest) && !rest.head.Name?
    ensures var ts := ConditionThen(condition, rest);
            && Ready(ts) && (ts.head.Name? ==> ts.head == Name("on"))
            && ParseCondition(ts) == Parsed(condition, rest)
  {
  }

  /** A field whose own braces, if any, parse. */
  lemma FieldParses(s: Selection, body: Stream, rest: Stream)
    requires s.Field? && ArgumentsOk(s.arguments, false) && DirectivesOk(s.directives, false)
    requires AfterSelection(rest)
    requires if s.selectionSet.SelectionSet? then Peek(body, BraceL)
             && ParseSelectionSet(body) == Parsed(s.selectionSet.selections, rest)
             else body == rest
    ensures var ts := FieldNameThen(s.alias, s.name, ArgumentsThen(s.arguments, DirectivesThen(s.directives, body)));
            && Ready(ts) && ts.head.Name?
            && ParseField(ts) == Parsed(s, rest)
  {
    DirectivesParse(s.directives, false, body);
    var more := DirectivesThen(s.directives, body);
    ArgumentsParse(s.arguments, false, more);
    FieldNameParses(s.alias, s.name, ArgumentsThen(s.arguments, more));
  }

  lemma FieldNameParses(alias: Option<string>, name: string, rest: Stream)
    requires Ready(rest) && rest.head != Colon
    ensures ParseFieldName(FieldNameThen(alias, name, rest)) == Parsed((alias, name), rest)
  {
  }

  lemma VariableParses(v: VariableDefinition, rest: Stream)
    requires VariableOk(v) && AfterVariable(rest)
    ensures ParseVariableDefinition(VariableDefinitionThen(v, rest)) == Parsed(v, rest)
  {
    DirectivesParse(v.directives, true, rest);
    var more := DirectivesThen(v.directives, rest);
    DefaultParses(v.default, more);
    TypeParses(v.varType, DefaultThen(v.default, more));
    VariablePartsParse(v, TypeThen(v.varType, DefaultThen(v.default, more)), DefaultThen(v.default, more), more, rest);
  }

  lemma VariablePartsParse(v: VariableDefinition, typed: Stream, defaulted: Stream, more: Stream, rest: Stream)
    requires Ready(typed) && ParseType(typed) == Parsed(v.varType, defaulted)
    requires ParseDefault(defaulted) == Parsed(v.default, more)
             && ParseDirectives(more, true) == Parsed(v.directives, rest)
    ensures ParseVariableDefinition(Put(Dollar, Put(Name(v.name), Put(Colon, typed)))) == Parsed(v, rest)
  {
    VariableNodeParses(Variable(v.name), Put(Colon, typed));
  }

  lemma DefaultParses(default: Option<Value>, rest: Stream)
    requires (default.Some? ==> ValueOk(default.value, true)) && Ready(rest) && rest.head != Equals && rest.head != Bang
    ensures AfterType(DefaultThen(default, rest)) && ParseDefault(DefaultThen(default, rest)) == Parsed(default, rest)
  {
    if default.Some? { ValueParses(default.value, true, rest); }
  }

  lemma {:induction false} MoreVariablesParse(variables: seq<VariableDefinition>, rest: Stream)
    requires (forall v <- variables :: VariableOk(v)) && Ready(rest)
    ensures AfterVariable(MoreVariablesThen(variables, rest))
    ensures MoreVariables(MoreVariablesThen(variables, rest)) == Parsed(variables, rest)
  {
    if variables != [] {
      assert [variables[0]] + variables[1..] == variables;
      MoreVariablesParse(variables[1..], rest);
      VariableParses(variables[0], MoreVariablesThen(variables[1..], rest));
    }
  }

  lemma VariablesParse(variables: seq<VariableDefinition>, rest: Stream)
    requires (forall v <- variables :: VariableOk(v)) && AfterArguments(rest)
    ensures Ready(VariablesThen(variables, rest))
    ensures if variables == [] then VariablesThen(variables, rest) == rest
            else VariablesThen(variables, rest).head == ParenL
    ensures ParseVariables(VariablesThen(variables, rest)) == Parsed(variables, rest)
  {
    if variables != [] {
      assert [variables[0]] + variables[1..] == variables;
      MoreVariablesParse(variables, rest);
      MoreVariablesParse(variables[1..], rest);
      VariableParses(variables[0], MoreVariablesThen(variables[1..], rest));
    }
  }

  lemma DefinitionParses(d: Definition, rest: Stream)
    requires DefinitionOk(d) && Ready(rest)
    ensures Ready(DefinitionThen(d, rest)) && DefinitionThen(d, rest).head != EndOfFile
    ensures ParseDefinition(DefinitionThen(d, rest)) == Parsed(d, rest)
  {
    SelectionSetParses(d.selections, rest);
    var body := SelectionSetThen(d.selections, rest);
    if d.Fragment? {
      DirectivesParse(d.directives, false, body);
      FragmentParses(d, DirectivesThen(d.directives, body), body, rest);
      FragmentIsNoOperation(DefinitionThen(d, rest));
    } else if IsShorthand(d) {
      ShorthandParses(d, body, rest);
    } else {
      DirectivesParse(d.directives, false, body);
      LongOperationParses(d, DirectivesThen(d.directives, body), body, rest);
    }
  }

  lemma ShorthandParses(d: Definition, body: Stream, rest: Stream)
    requires IsShorthand(d) && body.head == BraceL && ParseSelectionSet(body) == Parsed(d.selections, rest)
    ensures ParseDefinition(body) == Parsed(d, rest)
  {
  }

  lemma LongOperationParses(d: Definition, more: Stream, body: Stream, rest: Stream)
    requires d.Operation? && IsOperationType(d.operation) && forall v <- d.variables :: VariableOk(v)
    requires AfterArguments(more) && !more.head.Name? && ParseDirectives(more, false) == Parsed(d.directives, body)
    requires ParseSelectionSet(body) == Parsed(d.selections, rest)
    ensures ParseDefinition(Put(Name(d.operation), OptionalNameThen(d.name, VariablesThen(d.variables, more))))
            == Parsed(d, rest)
  {
    OperationParses(d, more, body, rest);
    KeywordParses(d.operation, OptionalNameThen(d.name, VariablesThen(d.variables, more)));
  }

  lemma KeywordParses(operation: string, ts: Stream)
    requires IsOperationType(operation) && Ready(ts)
    ensures ParseDefinition(Put(Name(operation), ts)) == ParseOperationBody(operation, ts)
  {
  }

  lemma FragmentIsNoOperation(ts: Stream)
    requires ts.head == Name("fragment")
    ensures ParseDefinition(ts) == ParseFragmentDefinition(ts)
  {
    assert "fragment"[0] == 'f' && "query"[0] == 'q' && "mutation"[0] == 'm' && "subscription"[0] == 's';
  }

  lemma FragmentParses(d: Definition, more: Stream, body: Stream, rest: Stream)
    requires d.Fragment? && d.fragmentName != "on" && Ready(more)
    requires ParseDirectives(more, false) == Parsed(d.directives, body)
             && ParseSelectionSet(body) == Parsed(d.selections, rest)
    ensures var ts := Put(Name("fragment"), Put(Name(d.fragmentName), Put(Name("on"), Put(Name(d.condition), more))));
            ParseFragmentDefinition(ts) == Parsed(d, rest)
  {
    var on := Put(Name("on"), Put(Name(d.condition), more));
    assert ParseFragmentName(Put(Name(d.fragmentName), on)) == Parsed(d.fragmentName, on);
  }

  lemma OperationParses(d: Definition, more: Stream, body: Stream, rest: Stream)
    requires d.Operation? && forall v <- d.variables :: VariableOk(v)
    requires AfterArguments(more) && !more.head.Name? && ParseDirectives(more, false) == Parsed(d.directives, body)
    requires ParseSelectionSet(body) == Parsed(d.selections, rest)
    ensures var ts := OptionalNameThen(d.name, VariablesThen(d.variables, more));
            Ready(ts) && ParseOperationBody(d.operation, ts) == Parsed(d, rest)
  {
    VariablesParse(d.variables, more);
    OptionalNameParses(d.name, VariablesThen(d.variables, more));
  }

  lemma OptionalNameParses(name: Option<string>, rest: Stream)
    requires Ready(rest) && !rest.head.Name?
    ensures Ready(OptionalNameThen(name, rest)) && ParseOptionalName(OptionalNameThen(name, rest)) == Parsed(name, rest)
  {
  }

  /** The parser reads every expressible document back from its tokens. */
  lemma {:induction false} DocumentParses(definitions: seq<Definition>)
    requires DocumentOk(Document(definitions))
    ensures var ts := DefinitionsThen(definitions, Last(EndOfFile));
            Ready(ts) && ts.head != EndOfFile && ParseDefinitions(ts) == Parsed(definitions, Last(EndOfFile))
  {
    var more := DefinitionsThen(definitions[1..], Last(EndOfFile));
    assert [definitions[0]] + definitions[1..] == definitions;
    if |definitions| == 1 {
      assert definitions[1..] == [];
    } else {
      assert DocumentOk(Document(definitions[1..]));
      DocumentParses(definitions[1..]);
    }
    DefinitionParses(definitions[0], more);
    OneMore(DefinitionThen(definitions[0], more), definitions[0], more, definitions[1..]);
  }

  lemma OneMore(ts: Stream, d: Definition, more: Stream, definitions: seq<Definition>)
    requires ParseDefinition(ts) == Parsed(d, more)
    requires if definitions == [] then more == Last(EndOfFile)
             else more.head != EndOfFile && ParseDefinitions(more) == Parsed(definitions, Last(EndOfFile))
    ensures ParseDefinitions(ts) == Parsed([d] + definitions, Last(EndOfFile))
  {
    assert [d] + [] == [d];
  }
}
