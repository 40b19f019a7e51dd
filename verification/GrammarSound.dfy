/** Whatever the parser accepts is made of exactly the tokens of the node it returns, and that node is
    one the grammar can express. */
module GrammarSound {
  import opened Ast
  import opened Lexer
  import opened Parser
  import opened Grammar

  lemma {:induction false} ValueSound(ts: Stream, isConst: bool)
    requires ParseValue(ts, isConst).Parsed?
    ensures var r := ParseValue(ts, isConst);
            ts == ValueThen(r.node, r.rest) && ValueOk(r.node, isConst)
            && Ready(r.rest)
    decreases ts, 0
  {
    match ts.head
    case BracketL => ValuesSound(Next(ts).rest, isConst);
    case BraceL => ObjectFieldsSound(Next(ts).rest, isConst);
    case _ =>
  }

  lemma {:induction false} ValuesSound(ts: Stream, isConst: bool)
    requires ParseValues(ts, isConst).Parsed?
    ensures var r := ParseValues(ts, isConst);
            ts == ValuesThen(r.node, r.rest) && (forall v <- r.node :: ValueOk(v, isConst)) && Ready(r.rest)
    decreases ts, 1
  {
    if !Peek(ts, BracketR) {
      ValueSound(ts, isConst);
      ValuesSound(ParseValue(ts, isConst).rest, isConst);
    }
  }

  lemma {:induction false} ObjectFieldsSound(ts: Stream, isConst: bool)
    requires ParseObjectFields(ts, isConst).Parsed?
    ensures var r := ParseObjectFields(ts, isConst);
            ts == ObjectFieldsThen(r.node, r.rest) && (forall f <- r.node :: ValueOk(f.value, isConst)) && Ready(r.rest)
    decreases ts, 1
  {
    if !Peek(ts, BraceR) {
      ValueSound(ts.rest.rest, isConst);
      ObjectFieldsSound(ParseObjectField(ts, isConst).rest, isConst);
    }
  }

  lemma ArgumentSound(ts: Stream, isConst: bool)
    requires ParseArgument(ts, isConst).Parsed?
    ensures var r := ParseArgument(ts, isConst);
            ts == ArgumentThen(r.node, r.rest) && ValueOk(r.node.value, isConst) && Ready(r.rest)
  {
    ValueSound(ts.rest.rest, isConst);
  }

  lemma {:induction false} MoreArgumentsSound(ts: Stream, isConst: bool)
    requires MoreArguments(ts, isConst).Parsed?
    ensures var r := MoreArguments(ts, isConst);
            ts == MoreArgumentsThen(r.node, r.rest) && ArgumentsOk(r.node, isConst) && Ready(r.rest)
    decreases ts
  {
    if !Peek(ts, ParenR) {
      ArgumentSound(ts, isConst);
      MoreArgumentsSound(ParseArgument(ts, isConst).rest, isConst);
    }
  }

  lemma ArgumentsSound(ts: Stream, isConst: bool)
    requires Ready(ts) && ParseArguments(ts, isConst).Parsed?
    ensures var r := ParseArguments(ts, isConst);
            ts == ArgumentsThen(r.node, r.rest) && ArgumentsOk(r.node, isConst) && Ready(r.rest)
  {
    if Peek(ts, ParenL) {
      ArgumentSound(Next(ts).rest, isConst);
      MoreArgumentsSound(ParseArgument(Next(ts).rest, isConst).rest, isConst);
    }
  }

  lemma DirectiveSound(ts: Stream, isConst: bool)
    requires ParseDirective(ts, isConst).Parsed?
    ensures var r := ParseDirective(ts, isConst);
            ts == DirectiveThen(r.node, r.rest) && ArgumentsOk(r.node.arguments, isConst) && Ready(r.rest)
  {
    ArgumentsSound(ts.rest.rest, isConst);
  }

  lemma {:induction false} DirectivesSound(ts: Stream, isConst: bool)
    requires Ready(ts) && ParseDirectives(ts, isConst).Parsed?
    ensures var r := ParseDirectives(ts, isConst);
            ts == DirectivesThen(r.node, r.rest) && DirectivesOk(r.node, isConst) && Ready(r.rest)
    decreases ts
  {
    if Peek(ts, At) {
      DirectiveSound(ts, isConst);
      DirectivesSound(ParseDirective(ts, isConst).rest, isConst);
    }
  }

  lemma {:induction false} TypeSound(ts: Stream)
    requires ParseType(ts).Parsed?
    ensures var r := ParseType(ts); ts == TypeThen(r.node, r.rest) && TypeOk(r.node) && Ready(r.rest)
    decreases ts, 1
  {
    NullableSound(ts);
  }

  lemma {:induction false} NullableSound(ts: Stream)
    requires ParseNullableType(ts).Parsed?
    ensures var r := ParseNullableType(ts); ts == TypeThen(r.node, r.rest) && TypeOk(r.node) && Ready(r.rest)
    decreases ts, 0
  {
    if Peek(ts, BracketL) { TypeSound(Next(ts).rest); }
  }

  lemma {:induction false} SelectionSetSound(ts: Stream)
    requires ParseSelectionSet(ts).Parsed?
    ensures var r := ParseSelectionSet(ts);
            ts == SelectionSetThen(r.node, r.rest) && SelectionSetOk(r.node) && Ready(r.rest)
    decreases ts, 0
  {
    var inner := Expect(ts, BraceL).rest;
    SelectionSound(inner);
    MoreSelectionsSound(ParseSelection(inner).rest);
  }

  lemma {:induction false} MoreSelectionsSound(ts: Stream)
    requires MoreSelections(ts).Parsed?
    ensures var r := MoreSelections(ts);
            ts == MoreSelectionsThen(r.node, r.rest) && (forall s <- r.node :: SelectionOk(s)) && Ready(r.rest)
    decreases ts, 2
  {
    if !Peek(ts, BraceR) {
      SelectionSound(ts);
      MoreSelectionsSound(ParseSelection(ts).rest);
    }
  }

  lemma {:induction false} SelectionSound(ts: Stream)
    requires ParseSelection(ts).Parsed?
    ensures var r := ParseSelection(ts); ts == SelectionThen(r.node, r.rest) && SelectionOk(r.node) && Ready(r.rest)
    decreases ts, 1
  {
    if Peek(ts, Spread) { FragmentSound(ts); } else { FieldSound(ts); }
  }

  lemma FieldNameSound(ts: Stream)
    requires ParseFieldName(ts).Parsed?
    ensures var r := ParseFieldName(ts); ts == FieldNameThen(r.node.0, r.node.1, r.rest) && Ready(r.rest)
  {
  }

  lemma {:induction false} FieldSound(ts: Stream)
    requires ParseField(ts).Parsed?
    ensures var r := ParseField(ts); ts == SelectionThen(r.node, r.rest) && SelectionOk(r.node) && Ready(r.rest)
    decreases ts, 0
  {
    FieldNameSound(ts);
    var name := ParseFieldName(ts);
    ArgumentsSound(name.rest, false);
    var arguments := ParseArguments(name.rest, false);
    DirectivesSound(arguments.rest, false);
    var directives := ParseDirectives(arguments.rest, false);
    if Peek(directives.rest, BraceL) { SelectionSetSound(directives.rest); }
  }

  lemma ConditionSound(ts: Stream)
    requires Ready(ts) && ParseCondition(ts).Parsed?
    ensures var r := ParseCondition(ts); ts == ConditionThen(r.node, r.rest) && Ready(r.rest)
  {
  }

  lemma {:induction false} FragmentSound(ts: Stream)
    requires ParseFragment(ts).Parsed?
    ensures var r := ParseFragment(ts); ts == SelectionThen(r.node, r.rest) && SelectionOk(r.node) && Ready(r.rest)
    decreases ts, 0
  {
    var inner := Expect(ts, Spread).rest;
    if inner.head.Name? && inner.head != Name("on") {
      DirectivesSound(ParseName(inner).rest, false);
    } else {
      InlineSound(inner);
    }
  }

  lemma {:induction false} InlineSound(ts: Stream)
    requires Ready(ts) && ParseCondition(ts).Parsed? && ParseDirectives(ParseCondition(ts).rest, false).Parsed?
    requires ParseSelectionSet(ParseDirectives(ParseCondition(ts).rest, false).rest).Parsed?
    ensures var c := ParseCondition(ts);
            var d := ParseDirectives(c.rest, false);
            var s := ParseSelectionSet(d.rest);
            && ts == ConditionThen(c.node, DirectivesThen(d.node, SelectionSetThen(s.node, s.rest)))
            && DirectivesOk(d.node, false) && SelectionSetOk(s.node) && Ready(s.rest)
    decreases ts, 1
  {
    ConditionSound(ts);
    var c := ParseCondition(ts);
    DirectivesSound(c.rest, false);
    SelectionSetSound(ParseDirectives(c.rest, false).rest);
  }

  /** A variable definition begins with a dollar, a name and a colon. */
  lemma VariableFrontSound(ts: Stream)
    requires ParseVariableDefinition(ts).Parsed?
    ensures ts.Put? && ts.rest.Put? && ts.rest.rest.Put?
    ensures var varType := ts.rest.rest.rest;
            && ts == Put(Dollar, Put(Name(ParseVariableDefinition(ts).node.name), Put(Colon, varType)))
            && Ready(varType) && ParseType(varType).Parsed?
  {
  }

  lemma VariableSound(ts: Stream)
    requires ParseVariableDefinition(ts).Parsed?
    ensures var r := ParseVariableDefinition(ts);
            ts == VariableDefinitionThen(r.node, r.rest) && VariableOk(r.node)
            && Ready(r.rest)
  {
    VariableFrontSound(ts);
    var varType := ts.rest.rest.rest;
    TypeSound(varType);
    var default := ParseType(varType).rest;
    if Peek(default, Equals) { ValueSound(Next(default).rest, true); }
    DirectivesSound(ParseDefault(default).rest, true);
  }

  lemma {:induction false} MoreVariablesSound(ts: Stream)
    requires MoreVariables(ts).Parsed?
    ensures var r := MoreVariables(ts);
            ts == MoreVariablesThen(r.node, r.rest) && (forall v <- r.node :: VariableOk(v)) && Ready(r.rest)
    decreases ts
  {
    if !Peek(ts, ParenR) {
      VariableSound(ts);
      MoreVariablesSound(ParseVariableDefinition(ts).rest);
    }
  }

  lemma VariablesSound(ts: Stream)
    requires Ready(ts) && ParseVariables(ts).Parsed?
    ensures var r := ParseVariables(ts);
            ts == VariablesThen(r.node, r.rest) && (forall v <- r.node :: VariableOk(v)) && Ready(r.rest)
  {
    if Peek(ts, ParenL) {
      VariableSound(Next(ts).rest);
      MoreVariablesSound(ParseVariableDefinition(Next(ts).rest).rest);
    }
  }

  lemma OptionalNameSound(ts: Stream)
    requires Ready(ts) && ParseOptionalName(ts).Parsed?
    ensures var r := ParseOptionalName(ts); ts == OptionalNameThen(r.node, r.rest) && Ready(r.rest)
  {
  }

  /** The definition's tokens, with the keyword `query` written out before a bare selection set or not. */
  function WrittenThen(d: Definition, keyword: bool, rest: Stream): Stream {
    if keyword && IsShorthand(d) then Put(Name("query"), DefinitionThen(d, rest)) else DefinitionThen(d, rest)
  }

  lemma OperationBodySound(operation: string, ts: Stream)
    requires Ready(ts) && IsOperationType(operation) && ParseOperationBody(operation, ts).Parsed?
    ensures var r := ParseOperationBody(operation, ts);
            Put(Name(operation), ts) == WrittenThen(r.node, true, r.rest) && DefinitionOk(r.node) && Ready(r.rest)
  {
    OptionalNameSound(ts);
    var name := ParseOptionalName(ts);
    VariablesSound(name.rest);
    var variables := ParseVariables(name.rest);
    DirectivesSound(variables.rest, false);
    SelectionSetSound(ParseDirectives(variables.rest, false).rest);
  }

  lemma FragmentDefinitionSound(ts: Stream)
    requires ParseFragmentDefinition(ts).Parsed?
    ensures var r := ParseFragmentDefinition(ts);
            ts == DefinitionThen(r.node, r.rest) && DefinitionOk(r.node)
            && Ready(r.rest)
  {
    var directives := ts.rest.rest.rest.rest;
    DirectivesSound(directives, false);
    SelectionSetSound(ParseDirectives(directives, false).rest);
  }

  lemma DefinitionSound(ts: Stream)
    requires ParseDefinition(ts).Parsed?
    ensures var r := ParseDefinition(ts);
            ts == WrittenThen(r.node, ts.head != BraceL, r.rest) && DefinitionOk(r.node) && Ready(r.rest)
  {
    if ts.head == BraceL {
      SelectionSetSound(ts);
    } else if IsOperationType(ts.head.value) {
      OperationBodySound(ts.head.value, ts.rest);
    } else {
      FragmentDefinitionSound(ts);
    }
  }

  function WrittenAll(definitions: seq<Definition>, keywords: seq<bool>, rest: Stream): Stream
    requires |keywords| == |definitions|
  {
    if definitions == [] then rest else WrittenThen(definitions[0], keywords[0],
    WrittenAll(definitions[1..], keywords[1..], rest))
  }

  /** Which definitions are written with a keyword in front; a bare selection set is not. */
  function Keywords(ts: Stream): seq<bool>
    decreases ts
  {
    var d := ParseDefinition(ts);
    [!Peek(ts, BraceL)] + if d.Failed? || Peek(d.rest, EndOfFile) then [] else Keywords(d.rest)
  }

  /** A source that parses consists of exactly the tokens of the document it parses to, up to redundant
      `query` keywords, and the document is expressible. */
  lemma {:induction false} DocumentSound(ts: Stream)
    requires ParseDefinitions(ts).Parsed?
    ensures var r := ParseDefinitions(ts);
            && DocumentOk(Document(r.node)) && r.rest.head == EndOfFile
            && |Keywords(ts)| == |r.node| && ts == WrittenAll(r.node, Keywords(ts), r.rest)
    decreases ts
  {
    DefinitionSound(ts);
    var d := ParseDefinition(ts);
    if !Peek(d.rest, EndOfFile) {
      DocumentSound(d.rest);
      assert Keywords(ts)[1..] == Keywords(d.rest);
      assert ParseDefinitions(ts).node[1..] == ParseDefinitions(d.rest).node;
    } else {
      assert Keywords(ts)[1..] == [] && [d.node][1..] == [];
    }
  }
}
