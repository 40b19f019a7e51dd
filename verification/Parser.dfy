/** The recursive-descent parser of fastql/language/parser.py, as functions from the tokens not yet
    consumed to a node and the tokens left. Locations.dfy says where in the text the nodes stand. */
module Parser {
  import opened Ast
  import opened Lexer

  /** `Failed` stands for a raised syntax error, of the parser or of the lexer behind it. */
  datatype Parsed<+T> = Failed | Parsed(node: T, rest: Stream) {
    predicate IsFailure() { Failed? }

    function PropagateFailure<U>(): Parsed<U>
      requires Failed?
    {
      Failed
    }

    function Extract(): Parsed<T>
      requires Parsed?
    {
      this
    }
  }

  // ----- token helpers ------------------------------------------------------------------------

  predicate Peek(ts: Stream, t: Token) { ts.head == t }

  /** `_advance_lexer`: the current token, provided a next one can be lexed. */
  function Next(ts: Stream): (r: Parsed<Token>)
    ensures r.Parsed? ==> r.rest < ts
  {
    if ts.Put? && !ts.rest.head.Invalid? then Parsed(ts.head, ts.rest) else Failed
  }

  /** `_expect_token` for a punctuator, `_expect_keyword` for a name. */
  function Expect(ts: Stream, t: Token): (r: Parsed<Token>)
    ensures r.Parsed? ==> r.rest < ts
  {
    if Peek(ts, t) then Next(ts) else Failed
  }

  function ParseName(ts: Stream): (r: Parsed<string>)
    ensures r.Parsed? ==> r.rest < ts
  {
    if !ts.head.Name? then Failed
    else
      var t :- Next(ts);
      Parsed(t.node.value, t.rest)
  }

  // ----- values ---------------------------------------------------------------------------------

  function NamedValue(name: string): Value {
    if name == "true" then BooleanValue(true)
    else if name == "false" then BooleanValue(false)
    else if name == "null" then NullValue
    else EnumValue(name)
  }

  function ParseValue(ts: Stream, isConst: bool): (r: Parsed<Value>)
    ensures r.Parsed? ==> r.rest < ts
    decreases ts, 0
  {
    match ts.head
    case BracketL =>
      var open :- Next(ts);
      var items :- ParseValues(open.rest, isConst);
      Parsed(ListValue(items.node), items.rest)
    case BraceL =>
      var open :- Next(ts);
      var fields :- ParseObjectFields(open.rest, isConst);
      Parsed(ObjectValue(fields.node), fields.rest)
    case Dollar => if isConst then Failed else ParseVariable(ts)
    case _ => ParseAtom(ts)
  }

  /** Literals that are one token. */
  function ParseAtom(ts: Stream): (r: Parsed<Value>)
    ensures r.Parsed? ==> r.rest < ts
  {
    match ts.head
    case Int(lexeme) => var t :- Next(ts); Parsed(IntValue(lexeme), t.rest)
    case Float(lexeme) => var t :- Next(ts); Parsed(FloatValue(lexeme), t.rest)
    case Str(text) => var t :- Next(ts); Parsed(StringValue(text, false), t.rest)
    case BlockStr(raw) => var t :- Next(ts); Parsed(StringValue(raw, true), t.rest)
    case Name(name) => var t :- Next(ts); Parsed(NamedValue(name), t.rest)
    case _ => Failed
  }

  function ParseVariable(ts: Stream): (r: Parsed<Value>)
    ensures r.Parsed? ==> r.rest < ts
  {
    var dollar :- Expect(ts, Dollar);
    var name :- ParseName(dollar.rest);
    Parsed(Variable(name.node), name.rest)
  }

  /** List items up to the closing bracket. */
  function ParseValues(ts: Stream, isConst: bool): (r: Parsed<seq<Value>>)
    ensures r.Parsed? ==> r.rest < ts
    decreases ts, 1
  {
    if Peek(ts, BracketR) then
      var close :- Next(ts);
      Parsed([], close.rest)
    else
      var item :- ParseValue(ts, isConst);
      var items :- ParseValues(item.rest, isConst);
      Parsed([item.node] + items.node, items.rest)
  }

  /** Object fields up to the closing brace. */
  function ParseObjectFields(ts: Stream, isConst: bool): (r: Parsed<seq<ObjectField>>)
    ensures r.Parsed? ==> r.rest < ts
    decreases ts, 2
  {
    if Peek(ts, BraceR) then
      var close :- Next(ts);
      Parsed([], close.rest)
    else
      var field :- ParseObjectField(ts, isConst);
      var fields :- ParseObjectFields(field.rest, isConst);
      Parsed([field.node] + fields.node, fields.rest)
  }

  function ParseObjectField(ts: Stream, isConst: bool): (r: Parsed<ObjectField>)
    ensures r.Parsed? ==> r.rest < ts
    decreases ts, 1
  {
    var name :- ParseName(ts);
    var colon :- Expect(name.rest, Colon);
    var value :- ParseValue(colon.rest, isConst);
    Parsed(ObjectField(name.node, value.node), value.rest)
  }

  // ----- arguments and directives ---------------------------------------------------------------------

  function ParseArgument(ts: Stream, isConst: bool): (r: Parsed<Argument>)
    ensures r.Parsed? ==> r.rest < ts
  {
    var name :- ParseName(ts);
    var colon :- Expect(name.rest, Colon);
    var value :- ParseValue(colon.rest, isConst);
    Parsed(Argument(name.node, value.node), value.rest)
  }

  /** Further arguments up to the closing parenthesis. */
  function MoreArguments(ts: Stream, isConst: bool): (r: Parsed<seq<Argument>>)
    ensures r.Parsed? ==> r.rest < ts
    decreases ts
  {
    if Peek(ts, ParenR) then
      var close :- Next(ts);
      Parsed([], close.rest)
    else
      var argument :- ParseArgument(ts, isConst);
      var arguments :- MoreArguments(argument.rest, isConst);
      Parsed([argument.node] + arguments.node, arguments.rest)
  }

  function ParseArguments(ts: Stream, isConst: bool): (r: Parsed<seq<Argument>>)
    ensures r.Parsed? ==> r.rest == ts || r.rest < ts
  {
    if !Peek(ts, ParenL) then Parsed([], ts)
    else
      var open :- Next(ts);
      var argument :- ParseArgument(open.rest, isConst);
      var arguments :- MoreArguments(argument.rest, isConst);
      Parsed([argument.node] + arguments.node, arguments.rest)
  }

  function ParseDirective(ts: Stream, isConst: bool): (r: Parsed<Directive>)
    ensures r.Parsed? ==> r.rest < ts
  {
    var at :- Expect(ts, At);
    var name :- ParseName(at.rest);
    var arguments :- ParseArguments(name.rest, isConst);
    Parsed(Directive(name.node, arguments.node), arguments.rest)
  }

  function ParseDirectives(ts: Stream, isConst: bool): (r: Parsed<seq<Directive>>)
    ensures r.Parsed? ==> r.rest == ts || r.rest < ts
    decreases ts
  {
    if !Peek(ts, At) then Parsed([], ts)
    else
      var directive :- ParseDirective(ts, isConst);
      var directives :- ParseDirectives(directive.rest, isConst);
      Parsed([directive.node] + directives.node, directives.rest)
  }

  // ----- type references --------------------------------------------------------------------------------

  function ParseType(ts: Stream): (r: Parsed<TypeRef>)
    ensures r.Parsed? ==> r.rest < ts
    decreases ts, 1
  {
    var inner :- ParseNullableType(ts);
    if !Peek(inner.rest, Bang) then Parsed(inner.node, inner.rest)
    else
      var bang :- Next(inner.rest);
      Parsed(NonNull(inner.node), bang.rest)
  }

  function ParseNullableType(ts: Stream): (r: Parsed<TypeRef>)
    ensures r.Parsed? ==> r.rest < ts && !r.node.NonNull?
    decreases ts, 0
  {
    if Peek(ts, BracketL) then
      var open :- Next(ts);
      var inner :- ParseType(open.rest);
      var close :- Expect(inner.rest, BracketR);
      Parsed(ListType(inner.node), close.rest)
    else
      var name :- ParseName(ts);
      Parsed(NamedType(name.node), name.rest)
  }

  // ----- selections ---------------------------------------------------------------------------------------

  function ParseSelectionSet(ts: Stream): (r: Parsed<seq<Selection>>)
    ensures r.Parsed? ==> r.rest < ts
    decreases ts, 0
  {
    var open :- Expect(ts, BraceL);
    var selection :- ParseSelection(open.rest);
    var selections :- MoreSelections(selection.rest);
    Parsed([selection.node] + selections.node, selections.rest)
  }

  /** Further selections up to the closing brace. */
  function MoreSelections(ts: Stream): (r: Parsed<seq<Selection>>)
    ensures r.Parsed? ==> r.rest < ts
    decreases ts, 2
  {
    if Peek(ts, BraceR) then
      var close :- Next(ts);
      Parsed([], close.rest)
    else
      var selection :- ParseSelection(ts);
      var selections :- MoreSelections(selection.rest);
      Parsed([selection.node] + selections.node, selections.rest)
  }

  function ParseSelection(ts: Stream): (r: Parsed<Selection>)
    ensures r.Parsed? ==> r.rest < ts
    decreases ts, 1
  {
    if Peek(ts, Spread) then ParseFragment(ts) else ParseField(ts)
  }

  /** A field's alias, when a colon follows its first name, and its name. */
  function ParseFieldName(ts: Stream): (r: Parsed<(Option<string>, string)>)
    ensures r.Parsed? ==> r.rest < ts
  {
    var first :- ParseName(ts);
    if !Peek(first.rest, Colon) then Parsed((None, first.node), first.rest)
    else
      var colon :- Next(first.rest);
      var name :- ParseName(colon.rest);
      Parsed((Some(first.node), name.node), name.rest)
  }

  function ParseField(ts: Stream): (r: Parsed<Selection>)
    ensures r.Parsed? ==> r.rest < ts
    decreases ts, 0
  {
    var name :- ParseFieldName(ts);
    var arguments :- ParseArguments(name.rest, false);
    var directives :- ParseDirectives(arguments.rest, false);
    if !Peek(directives.rest, BraceL) then
      Parsed(Field(name.node.1, name.node.0, arguments.node, directives.node, NoSelectionSet), directives.rest)
    else
      var braces :- ParseSelectionSet(directives.rest);
      Parsed(Field(name.node.1, name.node.0, arguments.node, directives.node, SelectionSet(braces.node)), braces.rest)
  }

  /** What follows `...`: a fragment's name, or the condition and body of an inline fragment. */
  function ParseFragment(ts: Stream): (r: Parsed<Selection>)
    ensures r.Parsed? ==> r.rest < ts
    decreases ts, 0
  {
    var spread :- Expect(ts, Spread);
    if spread.rest.head.Name? && spread.rest.head != Name("on") then
      var name :- ParseName(spread.rest);
      var directives :- ParseDirectives(name.rest, false);
      Parsed(FragmentSpread(name.node, directives.node), directives.rest)
    else
      var condition :- ParseCondition(spread.rest);
      var directives :- ParseDirectives(condition.rest, false);
      var braces :- ParseSelectionSet(directives.rest);
      Parsed(InlineFragment(condition.node, directives.node, braces.node), braces.rest)
  }

  function ParseCondition(ts: Stream): (r: Parsed<Option<string>>)
    ensures r.Parsed? ==> r.rest == ts || r.rest < ts
  {
    if !Peek(ts, Name("on")) then Parsed(None, ts)
    else
      var on :- Next(ts);
      var name :- ParseName(on.rest);
      Parsed(Some(name.node), name.rest)
  }

  // ----- definitions ---------------------------------------------------------------------------------------

  function ParseDefault(ts: Stream): (r: Parsed<Option<Value>>)
    ensures r.Parsed? ==> r.rest == ts || r.rest < ts
  {
    if !Peek(ts, Equals) then Parsed(None, ts)
    else
      var equals :- Next(ts);
      var value :- ParseValue(equals.rest, true);
      Parsed(Some(value.node), value.rest)
  }

  function ParseVariableDefinition(ts: Stream): (r: Parsed<VariableDefinition>)
    ensures r.Parsed? ==> r.rest < ts
  {
    var variable :- ParseVariable(ts);
    var colon :- Expect(variable.rest, Colon);
    var varType :- ParseType(colon.rest);
    var default :- ParseDefault(varType.rest);
    var directives :- ParseDirectives(default.rest, true);
    Parsed(VariableDefinition(variable.node.name, varType.node, default.node, directives.node), directives.rest)
  }

  /** Further variable definitions up to the closing parenthesis. */
  function MoreVariables(ts: Stream): (r: Parsed<seq<VariableDefinition>>)
    ensures r.Parsed? ==> r.rest < ts
    decreases ts
  {
    if Peek(ts, ParenR) then
      var close :- Next(ts);
      Parsed([], close.rest)
    else
      var variable :- ParseVariableDefinition(ts);
      var variables :- MoreVariables(variable.rest);
      Parsed([variable.node] + variables.node, variables.rest)
  }

  function ParseVariables(ts: Stream): (r: Parsed<seq<VariableDefinition>>)
    ensures r.Parsed? ==> r.rest == ts || r.rest < ts
  {
    if !Peek(ts, ParenL) then Parsed([], ts)
    else
      var open :- Next(ts);
      var variable :- ParseVariableDefinition(open.rest);
      var variables :- MoreVariables(variable.rest);
      Parsed([variable.node] + variables.node, variables.rest)
  }

  predicate IsOperationType(name: string) { name == "query" || name == "mutation" || name == "subscription" }

  function ParseOptionalName(ts: Stream): (r: Parsed<Option<string>>)
    ensures r.Parsed? ==> r.rest == ts || r.rest < ts
  {
    if !ts.head.Name? then Parsed(None, ts)
    else
      var name :- ParseName(ts);
      Parsed(Some(name.node), name.rest)
  }

  function ParseOperation(ts: Stream): (r: Parsed<Definition>)
    ensures r.Parsed? ==> r.rest < ts
  {
    if Peek(ts, BraceL) then
      var braces :- ParseSelectionSet(ts);
      Parsed(Operation("query", None, [], [], braces.node), braces.rest)
    else
      var operation :- ParseName(ts);
      if IsOperationType(operation.node) then ParseOperationBody(operation.node, operation.rest) else Failed
  }

  /** The rest of an operation after its type. */
  function ParseOperationBody(operation: string, ts: Stream): (r: Parsed<Definition>)
    ensures r.Parsed? ==> r.rest < ts
  {
    var name :- ParseOptionalName(ts);
    var variables :- ParseVariables(name.rest);
    var directives :- ParseDirectives(variables.rest, false);
    var braces :- ParseSelectionSet(directives.rest);
    Parsed(Operation(operation, name.node, variables.node, directives.node, braces.node), braces.rest)
  }

  function ParseFragmentName(ts: Stream): (r: Parsed<string>)
    ensures r.Parsed? ==> r.rest < ts
  {
    if Peek(ts, Name("on")) then Failed else ParseName(ts)
  }

  function ParseFragmentDefinition(ts: Stream): (r: Parsed<Definition>)
    ensures r.Parsed? ==> r.rest < ts
  {
    var keyword :- Expect(ts, Name("fragment"));
    var name :- ParseFragmentName(keyword.rest);
    var on :- Expect(name.rest, Name("on"));
    var condition :- ParseName(on.rest);
    var directives :- ParseDirectives(condition.rest, false);
    var braces :- ParseSelectionSet(directives.rest);
    Parsed(Fragment(name.node, condition.node, directives.node, braces.node), braces.rest)
  }

  function ParseDefinition(ts: Stream): (r: Parsed<Definition>)
    ensures r.Parsed? ==> r.rest < ts
  {
    if ts.head == BraceL || (ts.head.Name? && IsOperationType(ts.head.value)) then ParseOperation(ts)
    else if ts.head == Name("fragment") then ParseFragmentDefinition(ts)
    else Failed
  }

  /** One definition, then more until the end of the file. */
  function ParseDefinitions(ts: Stream): (r: Parsed<seq<Definition>>)
    ensures r.Parsed? ==> r.rest < ts
    decreases ts
  {
    var definition :- ParseDefinition(ts);
    if Peek(definition.rest, EndOfFile) then Parsed([definition.node], definition.rest)
    else
      var definitions :- ParseDefinitions(definition.rest);
      Parsed([definition.node] + definitions.node, definitions.rest)
  }

  /** `parse`: a document, or nothing when a syntax error is raised. */
  function Parse(source: string): Option<Document> {
    match ParseDefinitions(Tokens(source, 0))
    case Failed => None
    case Parsed(definitions, _) => Some(Document(definitions))
  }
}
