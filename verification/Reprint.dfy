/** Whatever source a document was parsed from, printing it and parsing again changes nothing. */
module Reprint {
  import opened Ast
  import opened Lexer
  import opened LexedText
  import opened Parser
  import opened Grammar
  import opened GrammarSound
  import opened Printer
  import opened PrintedText
  import opened RoundTrip

  // ----- what follows a node does not matter for its own tokens -----------------------------

  lemma {:induction false} ValueSwap(v: Value, rest: Stream, other: Stream)
    requires AllPrintable(ValueThen(v, rest)) && AllPrintable(other)
    ensures AllPrintable(ValueThen(v, other))
    decreases v, 1
  {
    match v
    case ListValue(items) => ValuesSwap(items, rest, other);
    case ObjectValue(fields) => FieldsSwap(fields, rest, other);
    case Variable(_) => assert AllPrintable(ValueThen(v, rest).rest);
    case _ =>
  }

  lemma {:induction false} ValuesSwap(items: seq<Value>, rest: Stream, other: Stream)
    requires AllPrintable(ValuesThen(items, rest)) && AllPrintable(other)
    ensures AllPrintable(ValuesThen(items, other))
    decreases items, 0
  {
    if items != [] {
      PrintableAfterValue(items[0], ValuesThen(items[1..], rest));
      ValuesSwap(items[1..], rest, other);
      ValueSwap(items[0], ValuesThen(items[1..], rest), ValuesThen(items[1..], other));
    }
  }

  lemma {:induction false} FieldsSwap(fields: seq<ObjectField>, rest: Stream, other: Stream)
    requires AllPrintable(ObjectFieldsThen(fields, rest)) && AllPrintable(other)
    ensures AllPrintable(ObjectFieldsThen(fields, other))
    decreases fields, 0
  {
    if fields != [] {
      var more, others := ObjectFieldsThen(fields[1..], rest), ObjectFieldsThen(fields[1..], other);
      NamedSwap(fields[0].name, fields[0].value, more, others, ObjectFieldsThen(fields, rest));
      PrintableAfterValue(fields[0].value, more);
      FieldsSwap(fields[1..], rest, other);
      ValueSwap(fields[0].value, more, others);
      Named(fields[0].name, ValueThen(fields[0].value, others));
    }
  }

  lemma NamedSwap(name: string, v: Value, rest: Stream, other: Stream, ts: Stream)
    requires ts == Put(Name(name), Put(Colon, ValueThen(v, rest))) && AllPrintable(ts)
    ensures Printable(Name(name)) && AllPrintable(ValueThen(v, rest))
  {
    assert AllPrintable(ts.rest);
  }

  lemma Named(name: string, ts: Stream)
    requires Printable(Name(name)) && AllPrintable(ts)
    ensures AllPrintable(Put(Name(name), Put(Colon, ts)))
  {
    assert AllPrintable(Put(Colon, ts));
  }

  lemma {:induction false} MoreArgumentsSwap(arguments: seq<Argument>, rest: Stream, other: Stream)
    requires AllPrintable(MoreArgumentsThen(arguments, rest)) && AllPrintable(other)
    ensures AllPrintable(MoreArgumentsThen(arguments, other))
  {
    if arguments != [] {
      var a := arguments[0];
      var more, others := MoreArgumentsThen(arguments[1..], rest), MoreArgumentsThen(arguments[1..], other);
      NamedSwap(a.name, a.value, more, others, MoreArgumentsThen(arguments, rest));
      PrintableAfterValue(a.value, more);
      MoreArgumentsSwap(arguments[1..], rest, other);
      ValueSwap(a.value, more, others);
      Named(a.name, ValueThen(a.value, others));
    }
  }

  lemma ArgumentsSwap(arguments: seq<Argument>, rest: Stream, other: Stream)
    requires AllPrintable(ArgumentsThen(arguments, rest)) && AllPrintable(other)
    ensures AllPrintable(ArgumentsThen(arguments, other))
  {
    if arguments != [] { MoreArgumentsSwap(arguments, rest, other); }
  }

  lemma {:induction false} DirectivesSwap(directives: seq<Directive>, rest: Stream, other: Stream)
    requires AllPrintable(DirectivesThen(directives, rest)) && AllPrintable(other)
    ensures AllPrintable(DirectivesThen(directives, other))
  {
    if directives != [] {
      var d := directives[0];
      var more, others := DirectivesThen(directives[1..], rest), DirectivesThen(directives[1..], other);
      assert AllPrintable(DirectivesThen(directives, rest).rest);
      PrintableAfterDirective(d, more);
      DirectivesSwap(directives[1..], rest, other);
      ArgumentsSwap(d.arguments, more, others);
      assert AllPrintable(Put(Name(d.name), ArgumentsThen(d.arguments, others)));
    }
  }

  lemma {:induction false} TypeSwap(t: TypeRef, rest: Stream, other: Stream)
    requires AllPrintable(TypeThen(t, rest)) && AllPrintable(other)
    ensures AllPrintable(TypeThen(t, other))
    decreases t
  {
    match t
    case NamedType(_) =>
    case ListType(u) => TypeSwap(u, Put(BracketR, rest), Put(BracketR, other));
    case NonNull(u) => TypeSwap(u, Put(Bang, rest), Put(Bang, other));
  }

  lemma {:induction false} SelectionsSwap(selections: seq<Selection>, rest: Stream, other: Stream)
    requires AllPrintable(MoreSelectionsThen(selections, rest)) && AllPrintable(other)
    ensures AllPrintable(MoreSelectionsThen(selections, other)) && AllPrintable(SelectionSetThen(selections, other))
    decreases selections, 1
  {
    if selections != [] {
      var more := MoreSelectionsThen(selections[1..], rest);
      PrintableAfterSelection(selections[0], more);
      SelectionsSwap(selections[1..], rest, other);
      SelectionSwap(selections[0], more, MoreSelectionsThen(selections[1..], other));
    }
  }

  lemma {:induction false} SelectionSwap(s: Selection, rest: Stream, other: Stream)
    requires AllPrintable(SelectionThen(s, rest)) && AllPrintable(other)
    ensures AllPrintable(SelectionThen(s, other))
    decreases s, 0
  {
    match s
    case Field(name, alias, arguments, directives, sub) =>
      var braces := if sub.SelectionSet? then SelectionSetThen(sub.selections, rest) else rest;
      PrintableInField(s, braces);
      if sub.SelectionSet? { SelectionsSwap(sub.selections, rest, other); }
      FieldSwap(s, braces, if sub.SelectionSet? then SelectionSetThen(sub.selections, other) else other);
    case FragmentSpread(name, directives) =>
      assert AllPrintable(SelectionThen(s, rest).rest);
      DirectivesSwap(directives, rest, other);
      assert AllPrintable(Put(Name(name), DirectivesThen(directives, other)));
    case InlineFragment(condition, directives, selections) =>
      var braces := SelectionSetThen(selections, rest);
      PrintableInInline(s, braces);
      SelectionsSwap(selections, rest, other);
      DirectivesSwap(directives, braces, SelectionSetThen(selections, other));
      var more := DirectivesThen(directives, SelectionSetThen(selections, other));
      if condition.Some? { assert AllPrintable(Put(Name(condition.value), more)); }
      assert AllPrintable(ConditionThen(condition, more));
  }

  lemma FieldSwap(s: Selection, rest: Stream, other: Stream)
    requires s.Field? && AllPrintable(other)
    requires AllPrintable(FieldNameThen(s.alias, s.name,
               ArgumentsThen(s.arguments, DirectivesThen(s.directives, rest))))
    ensures AllPrintable(FieldNameThen(s.alias, s.name,
              ArgumentsThen(s.arguments, DirectivesThen(s.directives, other))))
  {
    PrintableInField(s, rest);
    DirectivesSwap(s.directives, rest, other);
    ArgumentsSwap(s.arguments, DirectivesThen(s.directives, rest), DirectivesThen(s.directives, other));
    var more := ArgumentsThen(s.arguments, DirectivesThen(s.directives, other));
    assert AllPrintable(Put(Name(s.name), more));
    if s.alias.Some? { Named(s.alias.value, Put(Name(s.name), more)); }
  }

  lemma VariableSwap(v: VariableDefinition, rest: Stream, other: Stream)
    requires AllPrintable(VariableDefinitionThen(v, rest)) && AllPrintable(other)
    ensures AllPrintable(VariableDefinitionThen(v, other))
  {
    PrintableInVariable(v, rest);
    var more, others := DirectivesThen(v.directives, rest), DirectivesThen(v.directives, other);
    DirectivesSwap(v.directives, rest, other);
    if v.default.Some? { ValueSwap(v.default.value, more, others); }
    TypeSwap(v.varType, DefaultThen(v.default, more), DefaultThen(v.default, others));
    Named(v.name, TypeThen(v.varType, DefaultThen(v.default, others)));
  }

  lemma {:induction false} MoreVariablesSwap(variables: seq<VariableDefinition>, rest: Stream, other: Stream)
    requires AllPrintable(MoreVariablesThen(variables, rest)) && AllPrintable(other)
    ensures AllPrintable(MoreVariablesThen(variables, other))
  {
    if variables != [] {
      var more := MoreVariablesThen(variables[1..], rest);
      PrintableInVariable(variables[0], more);
      MoreVariablesSwap(variables[1..], rest, other);
      VariableSwap(variables[0], more, MoreVariablesThen(variables[1..], other));
    }
  }

  lemma DefinitionSwap(d: Definition, rest: Stream, other: Stream)
    requires AllPrintable(DefinitionThen(d, rest)) && AllPrintable(other)
    ensures AllPrintable(DefinitionThen(d, other))
  {
    var braces, others := SelectionSetThen(d.selections, rest), SelectionSetThen(d.selections, other);
    if d.Fragment? {
      PrintableInFragment(d, braces);
      SelectionsSwap(d.selections, rest, other);
      DirectivesSwap(d.directives, braces, others);
      var on := Put(Name("on"), Put(Name(d.condition), DirectivesThen(d.directives, others)));
      assert AllPrintable(on.rest) && AllPrintable(on) && AllPrintable(Put(Name(d.fragmentName), on));
    } else if IsShorthand(d) {
      SelectionsSwap(d.selections, rest, other);
    } else {
      PrintableInOperation(d, braces);
      SelectionsSwap(d.selections, rest, other);
      OperationSwap(d, braces, others);
    }
  }

  lemma OperationSwap(d: Definition, rest: Stream, other: Stream)
    requires d.Operation? && AllPrintable(other)
    requires AllPrintable(Put(Name(d.operation),
               OptionalNameThen(d.name, VariablesThen(d.variables, DirectivesThen(d.directives, rest)))))
    ensures AllPrintable(Put(Name(d.operation),
              OptionalNameThen(d.name, VariablesThen(d.variables, DirectivesThen(d.directives, other)))))
  {
    PrintableInOperation(d, rest);
    var more, others := DirectivesThen(d.directives, rest), DirectivesThen(d.directives, other);
    DirectivesSwap(d.directives, rest, other);
    if d.variables != [] { MoreVariablesSwap(d.variables, more, others); }
    var named := VariablesThen(d.variables, others);
    assert AllPrintable(named) && AllPrintable(OptionalNameThen(d.name, named));
  }

  // ----- what is lexed can be printed ---------------------------------------------------------------

  predicate NoBlockStrings(ts: Stream) { ts.Put? ==> !ts.head.BlockStr? && NoBlockStrings(ts.rest) }

  lemma {:induction false} LexedIsPrintable(body: string, from: nat)
    requires from <= |body| && NoBlockStrings(Tokens(body, from))
    ensures AllPrintable(Tokens(body, from))
    decreases |body| - from
  {
    match NextLexeme(body, from)
    case None =>
    case Some(l) =>
      if l.token != EndOfFile {
        LexedIsPrintable(body, l.end);
        LexemeIsPrintable(body, from);
      }
  }

  lemma LexemeIsPrintable(body: string, from: nat)
    requires from <= |body| && NextLexeme(body, from).Some?
    requires var t := NextLexeme(body, from).value.token; t != EndOfFile && !t.BlockStr?
    ensures Printable(NextLexeme(body, from).value.token)
  {
    var l := NextLexeme(body, from).value;
    NextIsPlaced(body, from);
    var own := body[l.start..l.end];
    assert LexemeAt(own, 0) == Some(Lexeme(l.token, 0, |own|));
    if l.token.Name? || l.token.Int? || l.token.Float? { OwnText(body, l.start); }
  }

  lemma OwnText(body: string, pos: nat)
    requires pos < |body| && LexemeAt(body, pos).Some?
    ensures var l := LexemeAt(body, pos).value;
            match l.token
            case Name(value) => value == body[l.start..l.end]
            case Int(lexeme) => lexeme == body[l.start..l.end]
            case Float(lexeme) => lexeme == body[l.start..l.end]
            case _ => true
  {
  }

  /** Dropping redundant keywords and whatever follows the document leaves printable tokens. */
  lemma {:induction false} WrittenIsPrintable(definitions: seq<Definition>, keywords: seq<bool>, rest: Stream)
    requires |keywords| == |definitions| && AllPrintable(WrittenAll(definitions, keywords, rest))
    ensures AllPrintable(DefinitionsThen(definitions, Last(EndOfFile)))
    decreases |definitions|
  {
    if definitions != [] {
      var more := WrittenAll(definitions[1..], keywords[1..], rest);
      assert AllPrintable(DefinitionThen(definitions[0], more));
      PrintableAfterDefinition(definitions[0], more);
      WrittenIsPrintable(definitions[1..], keywords[1..], rest);
      DefinitionSwap(definitions[0], more, DefinitionsThen(definitions[1..], Last(EndOfFile)));
    }
  }

  /** For every source without block strings: a document parsed from it is printed to a text that parses
      to the same document, so printing is stable from then on. */
  lemma ReprintingIsStable(source: string)
    requires Parse(source).Some? && NoBlockStrings(Tokens(source, 0))
    ensures var d := Parse(source).value;
            DocumentOk(d) && DocumentPrintable(d) && Parse(PrintDocument(d)) == Some(d)
  {
    var ts := Tokens(source, 0);
    DocumentSound(ts);
    var keywords := Keywords(ts);
    LexedIsPrintable(source, 0);
    WrittenIsPrintable(ParseDefinitions(ts).node, keywords, ParseDefinitions(ts).rest);
    ParsesBack(Parse(source).value);
  }
}
