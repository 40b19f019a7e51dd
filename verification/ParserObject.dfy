/** The `Parser` object: a cursor over the lexer, whose methods consume tokens and append to node lists,
    proved against the functions of Parser. Each node comes with its location, taken as `_loc` takes it from
    the node's first token and the last token consumed, and proved to be where the node's span stands. */
module ParserObject {
  import opened Ast
  import opened Lexer
  import opened LexedText
  import opened Parser
  import opened GrammarSound
  import opened Spans
  import opened Locations

  /** Nodes already collected, put before those still to be parsed. */
  function Prefixed<T>(nodes: seq<T>, r: Parsed<seq<T>>): Parsed<seq<T>> {
    if r.Failed? then Failed else Parsed(nodes + r.node, r.rest)
  }

  lemma PrefixedMore<T>(nodes: seq<T>, node: T, r: Parsed<seq<T>>)
    ensures Prefixed(nodes, Prefixed([node], r)) == Prefixed(nodes + [node], r)
  {
    if r.Parsed? { assert nodes + ([node] + r.node) == nodes + [node] + r.node; }
  }

  lemma PrefixedNone<T>(r: Parsed<seq<T>>)
    ensures Prefixed([], r) == r
  {
    if r.Parsed? { assert [] + r.node == r.node; }
  }

  /** Parsing a document from `ts` comes to parsing `rest` after these definitions. */
  ghost predicate Pending(nodes: seq<Definition>, keywords: seq<bool>, rest: Stream, ts: Stream) {
    if Peek(rest, EndOfFile) then ParseDefinitions(ts) == Parsed(nodes, rest) && Keywords(ts) == keywords
    else
      && ParseDefinitions(ts) == Prefixed(nodes, ParseDefinitions(rest))
      && Keywords(ts) == keywords + Keywords(rest)
  }

  lemma FirstDefinition(ls: seq<Lexeme>, ts: Stream, d: Definition)
    requires ParseDefinition(ts).Parsed? && ParseDefinition(ts).node == d
    ensures Pending([d], [!Peek(ts, BraceL)], ParseDefinition(ts).rest, ts)
    ensures var s := DefinitionSpan(d, !Peek(ts, BraceL), 0);
            Listed(ls, [Locate(ls, s)], DefinitionSpans([d], [!Peek(ts, BraceL)], 0), 0, s.to)
  {
    assert [d][1..] == [] && [!Peek(ts, BraceL)][1..] == [];
    LocateOne(ls, DefinitionSpan(d, !Peek(ts, BraceL), 0));
  }

  /** What a definition's outcome makes of the definitions that begin with it. */
  function WithFirst(d: Parsed<Definition>, more: Parsed<seq<Definition>>): Parsed<seq<Definition>> {
    if d.Failed? then Failed
    else if Peek(d.rest, EndOfFile) then Parsed([d.node], d.rest)
    else Prefixed([d.node], more)
  }

  lemma DefinitionsUnfold(ts: Stream)
    ensures var d := ParseDefinition(ts);
            ParseDefinitions(ts) == WithFirst(d, if d.Failed? then Failed else ParseDefinitions(d.rest))
  {
  }

  lemma KeywordsUnfold(ts: Stream)
    requires ParseDefinition(ts).Parsed?
    ensures var d := ParseDefinition(ts);
            Keywords(ts) == [!Peek(ts, BraceL)] + if Peek(d.rest, EndOfFile) then [] else Keywords(d.rest)
  {
  }

  lemma WithFirstPrefixed(nodes: seq<Definition>, d: Parsed<Definition>, more: Parsed<seq<Definition>>)
    ensures Prefixed(nodes, WithFirst(d, more))
            == if d.Failed? then Failed
               else if Peek(d.rest, EndOfFile) then Parsed(nodes + [d.node], d.rest)
               else Prefixed(nodes + [d.node], more)
  {
    if d.Parsed? { PrefixedMore(nodes, d.node, more); }
  }

  lemma KeywordsMore(keywords: seq<bool>, keyword: bool, more: seq<bool>)
    ensures keywords + ([keyword] + more) == keywords + [keyword] + more
  {
  }

  lemma MoreDefinitions(nodes: seq<Definition>, keywords: seq<bool>, rest: Stream, ts: Stream)
    requires Pending(nodes, keywords, rest, ts) && !Peek(rest, EndOfFile)
    ensures var d := ParseDefinition(rest);
            if d.Failed? then ParseDefinitions(ts).Failed?
            else Pending(nodes + [d.node], keywords + [!Peek(rest, BraceL)], d.rest, ts)
  {
    var d, keyword := ParseDefinition(rest), !Peek(rest, BraceL);
    DefinitionsUnfold(rest);
    if d.Parsed? {
      WithFirstPrefixed(nodes, d, ParseDefinitions(d.rest));
      KeywordsUnfold(rest);
      KeywordsMore(keywords, keyword, if Peek(d.rest, EndOfFile) then [] else Keywords(d.rest));
      if Peek(d.rest, EndOfFile) { assert keywords + [keyword] + [] == keywords + [keyword]; }
    }
  }

  /** A list or an object with its brackets. */
  function ParseList(ts: Stream, isConst: bool): Parsed<Value> {
    var open :- Expect(ts, BracketL);
    var items :- ParseValues(open.rest, isConst);
    Parsed(ListValue(items.node), items.rest)
  }

  function ParseObject(ts: Stream, isConst: bool): Parsed<Value> {
    var open :- Expect(ts, BraceL);
    var fields :- ParseObjectFields(open.rest, isConst);
    Parsed(ObjectValue(fields.node), fields.rest)
  }

  /** A directive's name and the outcome of its arguments. */
  function DirectiveFrom(name: string, arguments: Parsed<seq<Argument>>): Parsed<Directive> {
    if arguments.Failed? then Failed else Parsed(Directive(name, arguments.node), arguments.rest)
  }

  /** Directives and braces, with which several nodes end. */
  function ParseBody(ts: Stream): Parsed<(seq<Directive>, seq<Selection>)> {
    var directives :- ParseDirectives(ts, false);
    var selections :- ParseSelectionSet(directives.rest);
    Parsed((directives.node, selections.node), selections.rest)
  }

  /** The result is what the parsing function returns, and a cursor that is still valid has consumed as much. */
  ghost predicate Did<T(!new)>(r: Option<T>, spec: Parsed<T>, valid: bool, rest: Stream) {
    if spec.Failed? then r.None? else r == Some(spec.node) && valid && rest == spec.rest
  }

  /** Nodes whose last children come out as given, after the others. */
  function InlineFrom(condition: Parsed<Option<string>>): Parsed<Selection> {
    if condition.Failed? then Failed
    else
      var body :- ParseBody(condition.rest);
      Parsed(InlineFragment(condition.node, body.node.0, body.node.1), body.rest)
  }

  function SpreadFrom(name: Parsed<string>): Parsed<Selection> {
    if name.Failed? then Failed
    else
      var directives :- ParseDirectives(name.rest, false);
      Parsed(FragmentSpread(name.node, directives.node), directives.rest)
  }

  lemma SpreadParse(ts: Stream)
    requires ts.head.Name? && ts.head != Name("on")
    ensures ParseFragment(Put(Spread, ts)) == SpreadFrom(ParseName(ts))
  {
  }

  lemma InlineParse(ts: Stream)
    requires !ts.head.Invalid? && (ts.head.Name? ==> ts.head == Name("on"))
    ensures ParseFragment(Put(Spread, ts)) == InlineFrom(ParseCondition(ts))
  {
  }

  function ParseTypedVariable(ts: Stream): Parsed<(string, TypeRef)> {
    var variable :- ParseVariable(ts);
    var colon :- Expect(variable.rest, Colon);
    var varType :- ParseType(colon.rest);
    Parsed((variable.node.name, varType.node), varType.rest)
  }

  function VariableFrom(typed: (string, TypeRef), default: Parsed<Option<Value>>): Parsed<VariableDefinition> {
    if default.Failed? then Failed
    else
      var directives :- ParseDirectives(default.rest, true);
      Parsed(VariableDefinition(typed.0, typed.1, default.node, directives.node), directives.rest)
  }

  function ParseOperationHead(ts: Stream): Parsed<(Option<string>, seq<VariableDefinition>)> {
    var name :- ParseOptionalName(ts);
    var variables :- ParseVariables(name.rest);
    Parsed((name.node, variables.node), variables.rest)
  }

  function OperationFrom(
    operation: string, head: (Option<string>, seq<VariableDefinition>),
    body: Parsed<(seq<Directive>, seq<Selection>)>)
    : Parsed<Definition>
  {
    if body.Failed? then Failed
    else Parsed(Operation(operation, head.0, head.1, body.node.0, body.node.1), body.rest)
  }

  function ParseFragmentHead(ts: Stream): Parsed<(string, string)> {
    var keyword :- Expect(ts, Name("fragment"));
    var name :- ParseFragmentName(keyword.rest);
    var on :- Expect(name.rest, Name("on"));
    var condition :- ParseName(on.rest);
    Parsed((name.node, condition.node), condition.rest)
  }

  function FragmentFrom(head: (string, string), body: Parsed<(seq<Directive>, seq<Selection>)>): Parsed<Definition> {
    if body.Failed? then Failed else Parsed(Fragment(head.0, head.1, body.node.0, body.node.1), body.rest)
  }

  /** A node that does not come about has no location. */
  const NOWHERE := Located(0, 0, [])

  class Cursor {
    const lexer: Lexer
    var lastToken: Lexeme

    /** The tokens of the text, and how many of them have been consumed. */
    ghost const lexemes: seq<Lexeme>
    ghost var index: nat

    /** A cursor before the first token: the last token consumed is the start-of-file sentinel. */
    constructor (lexer: Lexer)
      requires lexer.token == Lexeme(Invalid, 0, 0)
      ensures this.lexer == lexer && lastToken == lexer.token
      ensures lexemes == Lexemes(lexer.body, 0) && Lists(lexer.body, lexemes) && index == 0
    {
      LexemesAreListed(lexer.body);
      this.lexer := lexer;
      lastToken := lexer.token;
      lexemes := Lexemes(lexer.body, 0);
      index := 0;
    }

    /** The current token is the one at `index`, and the last token the one before it. */
    ghost predicate Valid()
      reads this, lexer
    {
      && lexer.token.end <= |lexer.body| && !lexer.token.token.Invalid?
      && Lists(lexer.body, lexemes) && index < |lexemes| && lexer.token == lexemes[index]
      && lastToken.end == EndBefore(lexemes, index)
    }

    /** The current token and all that follow it. */
    ghost function Rest(): Stream
      reads this
    {
      StreamAt(lexemes, index)
    }

    /** `_loc`. */
    function Loc(start: Lexeme, inner: seq<Located>): (loc: Located)
      reads this
    {
      Located(start.start, lastToken.end, inner)
    }

    /** `_advance_lexer`. */
    method Advance() returns (ok: bool)
      requires Valid() && !lexer.token.token.EndOfFile?
      modifies this, lexer
      ensures lastToken == old(lexer.token)
      ensures ok == Next(old(Rest())).Parsed?
      ensures ok ==> Valid() && Rest() == Next(old(Rest())).rest && index == old(index) + 1
    {
      assert NextAt(lexer.body, lexemes, index);
      lastToken := lexer.token;
      ok := lexer.Advance();
      assert StreamAt(lexemes, index).rest == StreamAt(lexemes, index + 1);
      if ok { index := index + 1; }
    }

    /** `_expect_token`, `_expect_keyword`. */
    method ExpectToken(t: Token) returns (r: Option<Token>)
      requires Valid() && t != EndOfFile
      modifies this, lexer
      ensures Did(r, Expect(old(Rest()), t), Valid(), Rest())
      ensures r.Some? ==> index == old(index) + 1
    {
      if lexer.token.token != t { return None; }
      var ok := Advance();
      r := if ok then Some(t) else None;
    }

    /** `_expect_optional_token`, `_expect_optional_keyword`. */
    method OptionalToken(t: Token) returns (there: bool, ok: bool)
      requires Valid() && t != EndOfFile
      modifies this, lexer
      ensures there == Peek(old(Rest()), t) && (ok ==> Valid())
      ensures !there ==> ok && Rest() == old(Rest()) && index == old(index)
      ensures there ==> ok == Next(old(Rest())).Parsed?
      ensures there && ok ==> Rest() == Next(old(Rest())).rest && index == old(index) + 1
    {
      there := lexer.token.token == t;
      ok := true;
      if there { ok := Advance(); }
    }

    /** `parse_name`. */
    method NameNode() returns (r: Option<string>, loc: Located)
      requires Valid()
      modifies this, lexer
      ensures Did(r, ParseName(old(Rest())), Valid(), Rest())
      ensures r.Some? ==> Lies(lexemes, loc, NameSpan(old(index)), index)
    {
      var token := lexer.token;
      if !token.token.Name? { return None, NOWHERE; }
      var ok := Advance();
      if !ok { return None, NOWHERE; }
      return Some(token.token.value), Loc(token, []);
    }

    // ----- values --------------------------------------------------------------------------

    /** `parse_value_literal`. */
    method ValueLiteral(isConst: bool) returns (r: Option<Value>, loc: Located)
      requires Valid()
      modifies this, lexer
      ensures Did(r, ParseValue(old(Rest()), isConst), Valid(), Rest())
      ensures r.Some? ==> Lies(lexemes, loc, ValueSpan(r.value, old(index)), index)
      decreases Rest(), 0
    {
      var token := lexer.token.token;
      if token == BracketL {
        r, loc := ListNode(isConst);
      } else if token == BraceL {
        r, loc := ObjectNode(isConst);
      } else if token == Dollar {
        if isConst { return None, NOWHERE; }
        r, loc := VariableNode();
      } else {
        r, loc := Atom();
      }
    }

    /** Literals that are one token. */
    method Atom() returns (r: Option<Value>, loc: Located)
      requires Valid()
      modifies this, lexer
      ensures Did(r, ParseAtom(old(Rest())), Valid(), Rest())
      ensures r.Some? ==> Lies(lexemes, loc, ValueSpan(r.value, old(index)), index)
    {
      var token := lexer.token;
      var value;
      match token.token {
        case Int(lexeme) => value := IntValue(lexeme);
        case Float(lexeme) => value := FloatValue(lexeme);
        case Str(text) => value := StringValue(text, false);
        case BlockStr(raw) => value := StringValue(raw, true);
        case Name(name) => value := NamedValue(name);
        case _ => return None, NOWHERE;
      }
      var ok := Advance();
      if !ok { return None, NOWHERE; }
      return Some(value), Loc(token, []);
    }

    /** `parse_variable`. */
    method VariableNode() returns (r: Option<Value>, loc: Located)
      requires Valid()
      modifies this, lexer
      ensures Did(r, ParseVariable(old(Rest())), Valid(), Rest())
      ensures r.Some? ==> Lies(lexemes, loc, ValueSpan(r.value, old(index)), index)
    {
      var start := lexer.token;
      ghost var i := index;
      var dollar := ExpectToken(Dollar);
      if dollar.None? { return None, NOWHERE; }
      var name, named := NameNode();
      if name.None? { return None, NOWHERE; }
      LocateOne(lexemes, NameSpan(i + 1));
      return Some(Variable(name.value)), Loc(start, [named]);
    }

    /** `parse_list`. */
    method ListNode(isConst: bool) returns (r: Option<Value>, loc: Located)
      requires Valid()
      modifies this, lexer
      ensures Did(r, ParseList(old(Rest()), isConst), Valid(), Rest())
      ensures r.Some? ==> Lies(lexemes, loc, ValueSpan(r.value, old(index)), index)
      decreases Rest(), 0, 0
    {
      var start := lexer.token;
      ghost var i := index;
      var open := ExpectToken(BracketL);
      if open.None? { return None, NOWHERE; }
      var items, locs := ListItems(isConst);
      if items.None? { return None, NOWHERE; }
      EnclosedLies(lexemes, ValueSpans(items.value, i + 1), i, locs, index);
      return Some(ListValue(items.value)), Loc(start, locs);
    }

    /** `_any` over list items, after the opening bracket. */
    method ListItems(isConst: bool) returns (r: Option<seq<Value>>, locs: seq<Located>)
      requires Valid()
      modifies this, lexer
      ensures Did(r, ParseValues(old(Rest()), isConst), Valid(), Rest())
      ensures r.Some? ==> Closed(lexemes, locs, ValueSpans(r.value, old(index)), old(index), index)
      decreases Rest(), 1
    {
      ghost var start, first, goal := Rest(), index, ParseValues(Rest(), isConst);
      var nodes: seq<Value> := [];
      locs := [];
      PrefixedNone(goal);
      while true
        invariant Valid() && Prefixed(nodes, ParseValues(Rest(), isConst)) == goal
        invariant Listed(lexemes, locs, ValueSpans(nodes, first), first, index)
        invariant Rest() == start || Rest() < start
        decreases Rest()
      {
        ghost var ts, i := Rest(), index;
        var there, ok := OptionalToken(BracketR);
        if !ok { return None, []; }
        if there {
          assert nodes + [] == nodes;
          return Some(nodes), locs;
        }
        var node, loc := ValueLiteral(isConst);
        if node.None? { return None, []; }
        PrefixedMore(nodes, node.value, ParseValues(ParseValue(ts, isConst).rest, isConst));
        ValueAppended(nodes, node.value, first);
        ListedMore(lexemes, locs, ValueSpans(nodes, first), first, i, ValueSpan(node.value, i));
        nodes, locs := nodes + [node.value], locs + [loc];
      }
    }

    /** `parse_object`. */
    method ObjectNode(isConst: bool) returns (r: Option<Value>, loc: Located)
      requires Valid()
      modifies this, lexer
      ensures Did(r, ParseObject(old(Rest()), isConst), Valid(), Rest())
      ensures r.Some? ==> Lies(lexemes, loc, ValueSpan(r.value, old(index)), index)
      decreases Rest(), 0, 0
    {
      var start := lexer.token;
      ghost var i := index;
      var open := ExpectToken(BraceL);
      if open.None? { return None, NOWHERE; }
      var fields, locs := ObjectFields(isConst);
      if fields.None? { return None, NOWHERE; }
      EnclosedLies(lexemes, ObjectFieldSpans(fields.value, i + 1), i, locs, index);
      return Some(ObjectValue(fields.value)), Loc(start, locs);
    }

    /** `_any` over object fields, after the opening brace. */
    method ObjectFields(isConst: bool) returns (r: Option<seq<ObjectField>>, locs: seq<Located>)
      requires Valid()
      modifies this, lexer
      ensures Did(r, ParseObjectFields(old(Rest()), isConst), Valid(), Rest())
      ensures r.Some? ==> Closed(lexemes, locs, ObjectFieldSpans(r.value, old(index)), old(index), index)
      decreases Rest(), 2
    {
      ghost var start, first, goal := Rest(), index, ParseObjectFields(Rest(), isConst);
      var nodes: seq<ObjectField> := [];
      locs := [];
      PrefixedNone(goal);
      while true
        invariant Valid() && Prefixed(nodes, ParseObjectFields(Rest(), isConst)) == goal
        invariant Listed(lexemes, locs, ObjectFieldSpans(nodes, first), first, index)
        invariant Rest() == start || Rest() < start
        decreases Rest()
      {
        ghost var ts, i := Rest(), index;
        var there, ok := OptionalToken(BraceR);
        if !ok { return None, []; }
        if there {
          assert nodes + [] == nodes;
          return Some(nodes), locs;
        }
        var node, loc := ObjectFieldNode(isConst);
        if node.None? { return None, []; }
        PrefixedMore(nodes, node.value, ParseObjectFields(ParseObjectField(ts, isConst).rest, isConst));
        ObjectFieldAppended(nodes, node.value, first);
        ListedMore(lexemes, locs, ObjectFieldSpans(nodes, first), first, i, NamedValueSpan(node.value.value, i));
        nodes, locs := nodes + [node.value], locs + [loc];
      }
    }

    /** `parse_object_field`. */
    method ObjectFieldNode(isConst: bool) returns (r: Option<ObjectField>, loc: Located)
      requires Valid()
      modifies this, lexer
      ensures Did(r, ParseObjectField(old(Rest()), isConst), Valid(), Rest())
      ensures r.Some? ==> Lies(lexemes, loc, NamedValueSpan(r.value.value, old(index)), index)
      decreases Rest(), 1
    {
      var start := lexer.token;
      ghost var i := index;
      var name, named := NameNode();
      if name.None? { return None, NOWHERE; }
      var colon := ExpectToken(Colon);
      if colon.None? { return None, NOWHERE; }
      var value, valued := ValueLiteral(isConst);
      if value.None? { return None, NOWHERE; }
      LocateTwo(lexemes, NameSpan(i), ValueSpan(value.value, i + 2));
      return Some(ObjectField(name.value, value.value)), Loc(start, [named, valued]);
    }

    // ----- arguments and directives ------------------------------------------------------------

    /** `parse_argument`. */
    method ArgumentNode(isConst: bool) returns (r: Option<Argument>, loc: Located)
      requires Valid()
      modifies this, lexer
      ensures Did(r, ParseArgument(old(Rest()), isConst), Valid(), Rest())
      ensures r.Some? ==> Lies(lexemes, loc, NamedValueSpan(r.value.value, old(index)), index)
    {
      var start := lexer.token;
      ghost var i := index;
      var name, named := NameNode();
      if name.None? { return None, NOWHERE; }
      var colon := ExpectToken(Colon);
      if colon.None? { return None, NOWHERE; }
      var value, valued := ValueLiteral(isConst);
      if value.None? { return None, NOWHERE; }
      LocateTwo(lexemes, NameSpan(i), ValueSpan(value.value, i + 2));
      return Some(Argument(name.value, value.value)), Loc(start, [named, valued]);
    }

    /** `parse_arguments`, a `_many`. */
    method Arguments(isConst: bool) returns (r: Option<seq<Argument>>, locs: seq<Located>)
      requires Valid()
      modifies this, lexer
      ensures Did(r, ParseArguments(old(Rest()), isConst), Valid(), Rest())
      ensures r.Some? ==> LieAll(lexemes, locs, ArgumentsRow(r.value, old(index)), index)
    {
      if !lexer.token.token.ParenL? { return Some([]), []; }
      ghost var ts := Rest();
      var open := ExpectToken(ParenL);
      if open.None? { return None, []; }
      assert ts == Put(ParenL, Rest());
      r, locs := ManyArguments(isConst);
    }

    /** `_many` over arguments, after the opening parenthesis. */
    method ManyArguments(isConst: bool) returns (r: Option<seq<Argument>>, locs: seq<Located>)
      requires Valid()
      modifies this, lexer
      ensures Did(r, ParseArguments(Put(ParenL, old(Rest())), isConst), Valid(), Rest())
      ensures r.Some? ==>
                r.value != [] && Closed(lexemes, locs, ArgumentSpans(r.value, old(index)), old(index), index)
    {
      ghost var first := index;
      var node, loc := ArgumentNode(isConst);
      if node.None? { return None, []; }
      ghost var mid := index;
      var more, others := MoreArgumentNodes(isConst);
      if more.None? { return None, []; }
      ArgumentsLie(lexemes, node.value, more.value, first, mid, loc, others, index);
      return Some([node.value] + more.value), [loc] + others;
    }

    /** The rest of a `_many` over arguments. */
    method MoreArgumentNodes(isConst: bool) returns (r: Option<seq<Argument>>, locs: seq<Located>)
      requires Valid()
      modifies this, lexer
      ensures Did(r, MoreArguments(old(Rest()), isConst), Valid(), Rest())
      ensures r.Some? ==> Closed(lexemes, locs, ArgumentSpans(r.value, old(index)), old(index), index)
    {
      ghost var start, first, goal := Rest(), index, MoreArguments(Rest(), isConst);
      var nodes: seq<Argument> := [];
      locs := [];
      PrefixedNone(goal);
      while true
        invariant Valid() && Prefixed(nodes, MoreArguments(Rest(), isConst)) == goal
        invariant Listed(lexemes, locs, ArgumentSpans(nodes, first), first, index)
        invariant Rest() == start || Rest() < start
        decreases Rest()
      {
        ghost var ts, i := Rest(), index;
        var there, ok := OptionalToken(ParenR);
        if !ok { return None, []; }
        if there {
          assert nodes + [] == nodes;
          return Some(nodes), locs;
        }
        var node, loc := ArgumentNode(isConst);
        if node.None? { return None, []; }
        PrefixedMore(nodes, node.value, MoreArguments(ParseArgument(ts, isConst).rest, isConst));
        ArgumentAppended(nodes, node.value, first);
        ListedMore(lexemes, locs, ArgumentSpans(nodes, first), first, i, NamedValueSpan(node.value.value, i));
        nodes, locs := nodes + [node.value], locs + [loc];
      }
    }

    /** `parse_directive`. */
    method DirectiveNode(isConst: bool) returns (r: Option<Directive>, loc: Located)
      requires Valid()
      modifies this, lexer
      ensures Did(r, ParseDirective(old(Rest()), isConst), Valid(), Rest())
      ensures r.Some? ==> Lies(lexemes, loc, DirectiveSpan(r.value, old(index)), index)
    {
      var start := lexer.token;
      ghost var ts, i := Rest(), index;
      var at := ExpectToken(At);
      if at.None? { return None, NOWHERE; }
      var name, named := NameNode();
      if name.None? { return None, NOWHERE; }
      assert ParseDirective(ts, isConst) == DirectiveFrom(name.value, ParseArguments(Rest(), isConst));
      var arguments, given := Arguments(isConst);
      if arguments.None? { return None, NOWHERE; }
      r := Some(Directive(name.value, arguments.value));
      DirectiveLies(lexemes, r.value, i, named, given, index);
      loc := Loc(start, [named] + given);
    }

    /** `parse_directives`. */
    method Directives(isConst: bool) returns (r: Option<seq<Directive>>, locs: seq<Located>)
      requires Valid()
      modifies this, lexer
      ensures Did(r, ParseDirectives(old(Rest()), isConst), Valid(), Rest())
      ensures r.Some? ==> LieAll(lexemes, locs, DirectivesRow(r.value, old(index)), index)
    {
      ghost var first, goal := index, ParseDirectives(Rest(), isConst);
      var nodes: seq<Directive> := [];
      locs := [];
      PrefixedNone(goal);
      while lexer.token.token == At
        invariant Valid() && Prefixed(nodes, ParseDirectives(Rest(), isConst)) == goal
        invariant LieAll(lexemes, locs, DirectivesRow(nodes, first), index)
        decreases Rest()
      {
        ghost var ts, i := Rest(), index;
        var node, loc := DirectiveNode(isConst);
        if node.None? { return None, []; }
        PrefixedMore(nodes, node.value, ParseDirectives(ParseDirective(ts, isConst).rest, isConst));
        DirectiveAppended(nodes, node.value, first);
        LocateMore(lexemes, DirectivesRow(nodes, first).spans, DirectiveSpan(node.value, i));
        nodes, locs := nodes + [node.value], locs + [loc];
      }
      assert nodes + [] == nodes;
      r := Some(nodes);
    }

    // ----- type references ------------------------------------------------------------------------

    /** `parse_type_reference`. */
    method TypeReference() returns (r: Option<TypeRef>, loc: Located)
      requires Valid()
      modifies this, lexer
      ensures Did(r, ParseType(old(Rest())), Valid(), Rest())
      ensures r.Some? ==> Lies(lexemes, loc, TypeSpan(r.value, old(index)), index)
      decreases Rest(), 1
    {
      var start := lexer.token;
      ghost var i := index;
      var typeRef, inner := NullableTypeReference();
      if typeRef.None? { return None, NOWHERE; }
      var there, ok := OptionalToken(Bang);
      if !ok { return None, NOWHERE; }
      if !there { return typeRef, inner; }
      LocateOne(lexemes, TypeSpan(typeRef.value, i));
      return Some(NonNull(typeRef.value)), Loc(start, [inner]);
    }

    /** The part before an optional exclamation mark. */
    method NullableTypeReference() returns (r: Option<TypeRef>, loc: Located)
      requires Valid()
      modifies this, lexer
      ensures Did(r, ParseNullableType(old(Rest())), Valid(), Rest())
      ensures r.Some? ==> Lies(lexemes, loc, TypeSpan(r.value, old(index)), index)
      decreases Rest(), 0
    {
      var start := lexer.token;
      ghost var i := index;
      var there, ok := OptionalToken(BracketL);
      if !ok { return None, NOWHERE; }
      if there {
        var typeRef, inner := TypeReference();
        if typeRef.None? { return None, NOWHERE; }
        var close := ExpectToken(BracketR);
        if close.None? { return None, NOWHERE; }
        LocateOne(lexemes, TypeSpan(typeRef.value, i + 1));
        return Some(ListType(typeRef.value)), Loc(start, [inner]);
      } else {
        var name, named := NamedTypeNode();
        if name.None? { return None, NOWHERE; }
        return Some(NamedType(name.value)), named;
      }
    }

    /** `parse_named_type`. */
    method NamedTypeNode() returns (r: Option<string>, loc: Located)
      requires Valid()
      modifies this, lexer
      ensures Did(r, ParseName(old(Rest())), Valid(), Rest())
      ensures r.Some? ==> Lies(lexemes, loc, NamedTypeSpan(old(index)), index)
    {
      var start := lexer.token;
      ghost var i := index;
      var name, named := NameNode();
      if name.None? { return None, NOWHERE; }
      LocateOne(lexemes, NameSpan(i));
      return name, Loc(start, [named]);
    }

    // ----- selections -------------------------------------------------------------------------------

    /** `parse_selection_set`, a `_many`. */
    method SelectionSetNode() returns (r: Option<seq<Selection>>, loc: Located)
      requires Valid()
      modifies this, lexer
      ensures Did(r, ParseSelectionSet(old(Rest())), Valid(), Rest())
      ensures r.Some? ==> Lies(lexemes, loc, SelectionSetSpan(r.value, old(index)), index)
      decreases Rest(), 0
    {
      var start := lexer.token;
      ghost var ts, i := Rest(), index;
      var open := ExpectToken(BraceL);
      if open.None? { return None, NOWHERE; }
      assert ts == Put(BraceL, Rest());
      var selections, inner := ManySelections();
      if selections.None? { return None, NOWHERE; }
      EnclosedLies(lexemes, SelectionSpans(selections.value, i + 1), i, inner, index);
      return selections, Loc(start, inner);
    }

    /** `_many` over selections, after the opening brace. */
    method ManySelections() returns (r: Option<seq<Selection>>, locs: seq<Located>)
      requires Valid()
      modifies this, lexer
      ensures Did(r, ParseSelectionSet(Put(BraceL, old(Rest()))), Valid(), Rest())
      ensures r.Some? ==> Closed(lexemes, locs, SelectionSpans(r.value, old(index)), old(index), index)
      decreases Rest(), 3
    {
      ghost var first := index;
      var node, loc := SelectionNode();
      if node.None? { return None, []; }
      ghost var mid := index;
      var more, others := MoreSelectionNodes();
      if more.None? { return None, []; }
      SelectionsLie(lexemes, node.value, more.value, first, mid, loc, others, index);
      return Some([node.value] + more.value), [loc] + others;
    }

    /** The rest of a `_many` over selections. */
    method MoreSelectionNodes() returns (r: Option<seq<Selection>>, locs: seq<Located>)
      requires Valid()
      modifies this, lexer
      ensures Did(r, MoreSelections(old(Rest())), Valid(), Rest())
      ensures r.Some? ==> Closed(lexemes, locs, SelectionSpans(r.value, old(index)), old(index), index)
      decreases Rest(), 2
    {
      ghost var start, first, goal := Rest(), index, MoreSelections(Rest());
      var nodes: seq<Selection> := [];
      locs := [];
      PrefixedNone(goal);
      while true
        invariant Valid() && Prefixed(nodes, MoreSelections(Rest())) == goal
        invariant Listed(lexemes, locs, SelectionSpans(nodes, first), first, index)
        invariant Rest() == start || Rest() < start
        decreases Rest()
      {
        ghost var ts, i := Rest(), index;
        var there, ok := OptionalToken(BraceR);
        if !ok { return None, []; }
        if there {
          assert nodes + [] == nodes;
          return Some(nodes), locs;
        }
        var node, loc := SelectionNode();
        if node.None? { return None, []; }
        PrefixedMore(nodes, node.value, MoreSelections(ParseSelection(ts).rest));
        SelectionAppended(nodes, node.value, first);
        ListedMore(lexemes, locs, SelectionSpans(nodes, first), first, i, SelectionSpan(node.value, i));
        nodes, locs := nodes + [node.value], locs + [loc];
      }
    }

    /** `parse_selection`. */
    method SelectionNode() returns (r: Option<Selection>, loc: Located)
      requires Valid()
      modifies this, lexer
      ensures Did(r, ParseSelection(old(Rest())), Valid(), Rest())
      ensures r.Some? ==> Lies(lexemes, loc, SelectionSpan(r.value, old(index)), index)
      decreases Rest(), 1
    {
      if lexer.token.token == Spread { r, loc := FragmentNode(); } else { r, loc := FieldNode(); }
    }

    /** A field's alias, when a colon follows its first name, and its name. */
    method FieldName() returns (r: Option<(Option<string>, string)>, locs: seq<Located>)
      requires Valid()
      modifies this, lexer
      ensures Did(r, ParseFieldName(old(Rest())), Valid(), Rest())
      ensures r.Some? ==> LieAll(lexemes, locs, FieldNameRow(r.value.0, old(index)), index)
    {
      ghost var i := index;
      var nameOrAlias, first := NameNode();
      if nameOrAlias.None? { return None, []; }
      var there, ok := OptionalToken(Colon);
      if !ok { return None, []; }
      LocateOne(lexemes, NameSpan(i));
      if !there { return Some((None, nameOrAlias.value)), [first]; }
      var name, second := NameNode();
      if name.None? { return None, []; }
      LocateTwo(lexemes, NameSpan(i), NameSpan(i + 2));
      return Some((nameOrAlias, name.value)), [first, second];
    }

    /** `parse_field`. */
    method FieldNode() returns (r: Option<Selection>, loc: Located)
      requires Valid()
      modifies this, lexer
      ensures Did(r, ParseField(old(Rest())), Valid(), Rest())
      ensures r.Some? ==> Lies(lexemes, loc, SelectionSpan(r.value, old(index)), index)
      decreases Rest(), 0
    {
      var start := lexer.token;
      ghost var i := index;
      var name, names := FieldName();
      if name.None? { return None, NOWHERE; }
      ghost var j := index;
      var arguments, given := Arguments(false);
      if arguments.None? { return None, NOWHERE; }
      ghost var k := index;
      var directives, marks := Directives(false);
      if directives.None? { return None, NOWHERE; }
      ghost var mid := index;
      var front := names + given + marks;
      var sub, inner := NoSelectionSet, front;
      if lexer.token.token == BraceL {
        var selections, braces := SelectionSetNode();
        if selections.None? { return None, NOWHERE; }
        sub, inner := SelectionSet(selections.value), front + [braces];
      }
      var field := Field(name.value.1, name.value.0, arguments.value, directives.value, sub);
      FieldFrontLies(lexemes, field, i, names, j, given, k, marks, mid);
      FieldLies(lexemes, field, i, front, mid, inner, index);
      return Some(field), Loc(start, inner);
    }

    method Condition() returns (r: Option<Option<string>>, locs: seq<Located>)
      requires Valid()
      modifies this, lexer
      ensures Did(r, ParseCondition(old(Rest())), Valid(), Rest())
      ensures r.Some? ==> LieAll(lexemes, locs, ConditionRow(r.value, old(index)), index)
    {
      ghost var i := index;
      var there, ok := OptionalToken(Name("on"));
      if !ok { return None, []; }
      if !there { return Some(None), []; }
      var name, named := NamedTypeNode();
      if name.None? { return None, []; }
      LocateOne(lexemes, NamedTypeSpan(i + 1));
      return Some(name), [named];
    }

    /** `parse_fragment`. */
    method FragmentNode() returns (r: Option<Selection>, loc: Located)
      requires Valid()
      modifies this, lexer
      ensures Did(r, ParseFragment(old(Rest())), Valid(), Rest())
      ensures r.Some? ==> Lies(lexemes, loc, SelectionSpan(r.value, old(index)), index)
      decreases Rest(), 0
    {
      var start := lexer.token;
      ghost var ts := Rest();
      var spread := ExpectToken(Spread);
      if spread.None? { return None, NOWHERE; }
      assert ts == Put(Spread, Rest());
      if lexer.token.token.Name? && lexer.token.token != Name("on") {
        SpreadParse(Rest());
        r, loc := SpreadNode(start);
      } else {
        InlineParse(Rest());
        r, loc := InlineNode(start);
      }
    }

    /** A fragment's name, after the spread at `start`. */
    method SpreadNode(start: Lexeme) returns (r: Option<Selection>, loc: Located)
      requires Valid() && 0 < index && start == lexemes[index - 1]
      modifies this, lexer
      ensures Did(r, SpreadFrom(ParseName(old(Rest()))), Valid(), Rest())
      ensures r.Some? ==> Lies(lexemes, loc, SelectionSpan(r.value, old(index) - 1), index)
    {
      ghost var i := index - 1;
      var name, named := NameNode();
      if name.None? { return None, NOWHERE; }
      var directives, marks := Directives(false);
      if directives.None? { return None, NOWHERE; }
      var fragment := FragmentSpread(name.value, directives.value);
      SpreadLies(lexemes, fragment, i, named, marks, index);
      return Some(fragment), Loc(start, [named] + marks);
    }

    /** An inline fragment, after the spread at `start`. */
    method InlineNode(start: Lexeme) returns (r: Option<Selection>, loc: Located)
      requires Valid() && 0 < index && start == lexemes[index - 1]
      modifies this, lexer
      ensures Did(r, InlineFrom(ParseCondition(old(Rest()))), Valid(), Rest())
      ensures r.Some? ==> Lies(lexemes, loc, SelectionSpan(r.value, old(index) - 1), index)
      decreases Rest(), 4
    {
      ghost var ts, i := Rest(), index - 1;
      var condition, conditions := Condition();
      if condition.None? { return None, NOWHERE; }
      assert ParseCondition(ts) == Parsed(condition.value, Rest());
      var body, inner := Body(ConditionRow(condition.value, i + 1), conditions);
      if body.None? { return None, NOWHERE; }
      var fragment := InlineFragment(condition.value, body.value.0, body.value.1);
      InlineLies(lexemes, fragment, i, inner, index);
      return Some(fragment), Loc(start, inner);
    }

    /** The end of a node, after its children with the locations `before`. */
    method Body(ghost front: Row, before: seq<Located>)
      returns (r: Option<(seq<Directive>, seq<Selection>)>, locs: seq<Located>)
      requires Valid() && LieAll(lexemes, before, front, index)
      modifies this, lexer
      ensures Did(r, ParseBody(old(Rest())), Valid(), Rest())
      ensures r.Some? ==> LieAll(lexemes, locs, BodyRow(front, r.value), index)
      decreases Rest(), 1
    {
      var directives, marks := Directives(false);
      if directives.None? { return None, []; }
      ghost var row := DirectivesRow(directives.value, front.to);
      Joined(lexemes, before, front, marks, row);
      var selections, braces := SelectionSetNode();
      if selections.None? { return None, []; }
      LocateMore(lexemes, Then(front, row).spans, SelectionSetSpan(selections.value, row.to));
      return Some((directives.value, selections.value)), before + marks + [braces];
    }

    // ----- definitions ----------------------------------------------------------------------------------

    /** `parse_variable_definition`. */
    method VariableDefinitionNode() returns (r: Option<VariableDefinition>, loc: Located)
      requires Valid()
      modifies this, lexer
      ensures Did(r, ParseVariableDefinition(old(Rest())), Valid(), Rest())
      ensures r.Some? ==> Lies(lexemes, loc, VariableDefinitionSpan(r.value, old(index)), index)
    {
      var start := lexer.token;
      ghost var ts, i := Rest(), index;
      var typed, front := TypedVariable();
      if typed.None? { return None, NOWHERE; }
      assert ParseVariableDefinition(ts) == VariableFrom(typed.value, ParseDefault(Rest()));
      ghost var j := index;
      var default, given := DefaultValue();
      if default.None? { return None, NOWHERE; }
      ghost var k := index;
      var directives, marks := Directives(true);
      if directives.None? { return None, NOWHERE; }
      r := Some(VariableDefinition(typed.value.0, typed.value.1, default.value, directives.value));
      VariableDefinitionLies(lexemes, r.value, i, front, j, given, k, marks, index);
      loc := Loc(start, front + given + marks);
    }

    /** A variable, a colon and a type. */
    method TypedVariable() returns (r: Option<(string, TypeRef)>, locs: seq<Located>)
      requires Valid()
      modifies this, lexer
      ensures Did(r, ParseTypedVariable(old(Rest())), Valid(), Rest())
      ensures r.Some? ==> LieAll(lexemes, locs, TypedRow(r.value.0, r.value.1, old(index)), index)
    {
      ghost var i := index;
      var variable, named := VariableNode();
      if variable.None? { return None, []; }
      var colon := ExpectToken(Colon);
      if colon.None? { return None, []; }
      var typeRef, typed := TypeReference();
      if typeRef.None? { return None, []; }
      LocateTwo(lexemes, ValueSpan(variable.value, i), TypeSpan(typeRef.value, i + 3));
      return Some((variable.value.name, typeRef.value)), [named, typed];
    }

    method DefaultValue() returns (r: Option<Option<Value>>, locs: seq<Located>)
      requires Valid()
      modifies this, lexer
      ensures Did(r, ParseDefault(old(Rest())), Valid(), Rest())
      ensures r.Some? ==> LieAll(lexemes, locs, DefaultRow(r.value, old(index)), index)
    {
      ghost var i := index;
      var there, ok := OptionalToken(Equals);
      if !ok { return None, []; }
      if !there { return Some(None), []; }
      var value, valued := ValueLiteral(true);
      if value.None? { return None, []; }
      LocateOne(lexemes, ValueSpan(value.value, i + 1));
      return Some(value), [valued];
    }

    /** `parse_variable_definitions`, a `_many`. */
    method VariableDefinitions() returns (r: Option<seq<VariableDefinition>>, locs: seq<Located>)
      requires Valid()
      modifies this, lexer
      ensures Did(r, ParseVariables(old(Rest())), Valid(), Rest())
      ensures r.Some? ==> LieAll(lexemes, locs, VariablesRow(r.value, old(index)), index)
    {
      if !lexer.token.token.ParenL? { return Some([]), []; }
      ghost var ts := Rest();
      var open := ExpectToken(ParenL);
      if open.None? { return None, []; }
      assert ts == Put(ParenL, Rest());
      r, locs := ManyVariables();
    }

    /** `_many` over variable definitions, after the opening parenthesis. */
    method ManyVariables() returns (r: Option<seq<VariableDefinition>>, locs: seq<Located>)
      requires Valid()
      modifies this, lexer
      ensures Did(r, ParseVariables(Put(ParenL, old(Rest()))), Valid(), Rest())
      ensures r.Some? ==>
                r.value != [] && Closed(lexemes, locs, VariableDefinitionSpans(r.value, old(index)), old(index), index)
    {
      ghost var first := index;
      var node, loc := VariableDefinitionNode();
      if node.None? { return None, []; }
      ghost var mid := index;
      var more, others := MoreVariableNodes();
      if more.None? { return None, []; }
      VariablesLie(lexemes, node.value, more.value, first, mid, loc, others, index);
      return Some([node.value] + more.value), [loc] + others;
    }

    /** The rest of a `_many` over variable definitions. */
    method MoreVariableNodes() returns (r: Option<seq<VariableDefinition>>, locs: seq<Located>)
      requires Valid()
      modifies this, lexer
      ensures Did(r, MoreVariables(old(Rest())), Valid(), Rest())
      ensures r.Some? ==> Closed(lexemes, locs, VariableDefinitionSpans(r.value, old(index)), old(index), index)
    {
      ghost var start, first, goal := Rest(), index, MoreVariables(Rest());
      var nodes: seq<VariableDefinition> := [];
      locs := [];
      PrefixedNone(goal);
      while true
        invariant Valid() && Prefixed(nodes, MoreVariables(Rest())) == goal
        invariant Listed(lexemes, locs, VariableDefinitionSpans(nodes, first), first, index)
        invariant Rest() == start || Rest() < start
        decreases Rest()
      {
        ghost var ts, i := Rest(), index;
        var there, ok := OptionalToken(ParenR);
        if !ok { return None, []; }
        if there {
          assert nodes + [] == nodes;
          return Some(nodes), locs;
        }
        var node, loc := VariableDefinitionNode();
        if node.None? { return None, []; }
        PrefixedMore(nodes, node.value, MoreVariables(ParseVariableDefinition(ts).rest));
        VariableAppended(nodes, node.value, first);
        ListedMore(lexemes, locs, VariableDefinitionSpans(nodes, first), first, i,
            VariableDefinitionSpan(node.value, i));
        nodes, locs := nodes + [node.value], locs + [loc];
      }
    }

    method OptionalName() returns (r: Option<Option<string>>, locs: seq<Located>)
      requires Valid()
      modifies this, lexer
      ensures Did(r, ParseOptionalName(old(Rest())), Valid(), Rest())
      ensures r.Some? ==> LieAll(lexemes, locs, OptionalNameRow(r.value, old(index)), index)
    {
      if !lexer.token.token.Name? { return Some(None), []; }
      ghost var i := index;
      var name, named := NameNode();
      if name.None? { return None, []; }
      LocateOne(lexemes, NameSpan(i));
      return Some(name), [named];
    }

    /** `parse_operation_definition`. */
    method OperationNode() returns (r: Option<Definition>, loc: Located)
      requires Valid()
      modifies this, lexer
      ensures Did(r, ParseOperation(old(Rest())), Valid(), Rest())
      ensures r.Some? ==> Lies(lexemes, loc, DefinitionSpan(r.value, !Peek(old(Rest()), BraceL), old(index)), index)
    {
      var start := lexer.token;
      ghost var i := index;
      if start.token == BraceL {
        var selections, body := SelectionSetNode();
        if selections.None? { return None, NOWHERE; }
        LocateOne(lexemes, SelectionSetSpan(selections.value, i));
        return Some(Operation("query", None, [], [], selections.value)), Loc(start, [body]);
      }
      var operation, _ := NameNode();
      if operation.None? || !IsOperationType(operation.value) { return None, NOWHERE; }
      var inner;
      r, inner := OperationBody(operation.value);
      if r.None? { return None, NOWHERE; }
      KeywordSpan(r.value, i);
      loc := Loc(start, inner);
    }

    /** What follows the operation's type. */
    method OperationBody(operation: string) returns (r: Option<Definition>, locs: seq<Located>)
      requires Valid()
      modifies this, lexer
      ensures Did(r, ParseOperationBody(operation, old(Rest())), Valid(), Rest())
      ensures r.Some? ==> r.value.Operation? && LieAll(lexemes, locs, OperationRow(r.value, old(index)), index)
    {
      ghost var ts, i := Rest(), index;
      var head, front := OperationHead();
      if head.None? { return None, []; }
      assert ParseOperationBody(operation, ts) == OperationFrom(operation, head.value, ParseBody(Rest()));
      var body;
      body, locs := Body(OperationHeadRow(head.value, i), front);
      if body.None? { return None, []; }
      r := Some(Operation(operation, head.value.0, head.value.1, body.value.0, body.value.1));
    }

    /** An operation's name and variables. */
    method OperationHead()
      returns (r: Option<(Option<string>, seq<VariableDefinition>)>, locs: seq<Located>)
      requires Valid()
      modifies this, lexer
      ensures Did(r, ParseOperationHead(old(Rest())), Valid(), Rest())
      ensures r.Some? ==> LieAll(lexemes, locs, OperationHeadRow(r.value, old(index)), index)
    {
      ghost var i := index;
      var name, named := OptionalName();
      if name.None? { return None, []; }
      ghost var row := OptionalNameRow(name.value, i);
      var variables, given := VariableDefinitions();
      if variables.None? { return None, []; }
      Joined(lexemes, named, row, given, VariablesRow(variables.value, row.to));
      return Some((name.value, variables.value)), named + given;
    }

    /** `parse_fragment_name`. */
    method FragmentName() returns (r: Option<string>, loc: Located)
      requires Valid()
      modifies this, lexer
      ensures Did(r, ParseFragmentName(old(Rest())), Valid(), Rest())
      ensures r.Some? ==> Lies(lexemes, loc, NameSpan(old(index)), index)
    {
      if lexer.token.token == Name("on") { return None, NOWHERE; }
      r, loc := NameNode();
    }

    /** `parse_fragment_definition`. */
    method FragmentDefinitionNode() returns (r: Option<Definition>, loc: Located)
      requires Valid()
      modifies this, lexer
      ensures Did(r, ParseFragmentDefinition(old(Rest())), Valid(), Rest())
      ensures r.Some? ==> Lies(lexemes, loc, DefinitionSpan(r.value, true, old(index)), index)
    {
      var start := lexer.token;
      ghost var ts, i := Rest(), index;
      var head, front := FragmentHead();
      if head.None? { return None, NOWHERE; }
      assert ParseFragmentDefinition(ts) == FragmentFrom(head.value, ParseBody(Rest()));
      var body, inner := Body(HeadRow(i), front);
      if body.None? { return None, NOWHERE; }
      var fragment := Fragment(head.value.0, head.value.1, body.value.0, body.value.1);
      FragmentLies(lexemes, fragment, i, inner, index);
      return Some(fragment), Loc(start, inner);
    }

    /** The keyword, the fragment's name and its type condition. */
    method FragmentHead() returns (r: Option<(string, string)>, locs: seq<Located>)
      requires Valid()
      modifies this, lexer
      ensures Did(r, ParseFragmentHead(old(Rest())), Valid(), Rest())
      ensures r.Some? ==> LieAll(lexemes, locs, HeadRow(old(index)), index)
    {
      ghost var i := index;
      var keyword := ExpectToken(Name("fragment"));
      if keyword.None? { return None, []; }
      var name, named := FragmentName();
      if name.None? { return None, []; }
      var on := ExpectToken(Name("on"));
      if on.None? { return None, []; }
      var condition, typed := NamedTypeNode();
      if condition.None? { return None, []; }
      LocateTwo(lexemes, NameSpan(i + 1), NamedTypeSpan(i + 3));
      return Some((name.value, condition.value)), [named, typed];
    }

    /** `parse_definition`. */
    method DefinitionNode() returns (r: Option<Definition>, loc: Located)
      requires Valid()
      modifies this, lexer
      ensures Did(r, ParseDefinition(old(Rest())), Valid(), Rest())
      ensures r.Some? ==> Lies(lexemes, loc, DefinitionSpan(r.value, !Peek(old(Rest()), BraceL), old(index)), index)
    {
      var token := lexer.token.token;
      if token == BraceL || (token.Name? && IsOperationType(token.value)) {
        r, loc := OperationNode();
      } else if token == Name("fragment") {
        r, loc := FragmentDefinitionNode();
      } else {
        return None, NOWHERE;
      }
    }

    /** `parse_document`. */
    method Definitions() returns (r: Option<seq<Definition>>, loc: Located)
      requires Valid() && index == 0
      modifies this, lexer
      ensures Did(r, ParseDefinitions(old(Rest())), Valid(), Rest())
      ensures r.Some? ==>
                && |Keywords(old(Rest()))| == |r.value|
                && Lies(lexemes, loc, DocumentSpan(r.value, Keywords(old(Rest()))), index)
    {
      var start := lexer.token;
      ghost var ts := Rest();
      var node, inner := DefinitionNode();
      if node.None? { return None, NOWHERE; }
      ghost var keywords := [!Peek(ts, BraceL)];
      var nodes, locs := [node.value], [inner];
      FirstDefinition(lexemes, ts, node.value);
      while !lexer.token.token.EndOfFile?
        invariant Valid() && |keywords| == |nodes| && Pending(nodes, keywords, Rest(), ts)
        invariant Listed(lexemes, locs, DefinitionSpans(nodes, keywords, 0), 0, index)
        decreases Rest()
      {
        ghost var more, i := Rest(), index;
        MoreDefinitions(nodes, keywords, more, ts);
        node, inner := DefinitionNode();
        if node.None? { return None, NOWHERE; }
        ghost var keyword := !Peek(more, BraceL);
        DefinitionAppended(nodes, keywords, node.value, keyword, 0);
        ListedMore(lexemes, locs, DefinitionSpans(nodes, keywords, 0), 0, i, DefinitionSpan(node.value, keyword, i));
        nodes, locs, keywords := nodes + [node.value], locs + [inner], keywords + [keyword];
      }
      DocumentLies(lexemes, nodes, keywords, locs, index);
      return Some(nodes), Loc(start, locs);
    }
  }

  /** `parse`: a lexer and a cursor on its first token. */
  method ParseSource(source: string) returns (r: Option<Document>, loc: Located)
    ensures r == Parse(source)
    ensures r.Some? ==>
              && |Keywords(Tokens(source, 0))| == |r.value.definitions|
              && loc == Locate(Lexemes(source, 0), DocumentSpan(r.value.definitions, Keywords(Tokens(source, 0))))
              && Nests(loc)
  {
    var lexer := new Lexer(source);
    var cursor := new Cursor(lexer);
    var ok := lexer.Advance();
    if !ok { return None, NOWHERE; }
    ListIsStream(source);
    var definitions;
    definitions, loc := cursor.Definitions();
    if definitions.None? { return None, NOWHERE; }
    LocationsNest(source);
    r := Some(Document(definitions.value));
  }
}
