/** Node locations: where the tokens a node spans stand in the text. A node's location runs from its first
    token's start to its last token's end. */
module Locations {
  import opened Ast
  import opened Lexer
  import opened LexedText
  import opened Parser
  import opened Grammar
  import opened GrammarSound
  import opened Spans

  /** A node's location and those of its children in order. */
  datatype Located = Located(start: nat, end: nat, inner: seq<Located>)

  /** Where the token at `i` starts. */
  function StartOf(ls: seq<Lexeme>, i: nat): nat { if i < |ls| then ls[i].start else 0 }

  /** Where the token before `i` ends; before the first token is the start of the file. */
  function EndBefore(ls: seq<Lexeme>, i: nat): nat { if 0 < i <= |ls| then ls[i - 1].end else 0 }

  /** From the first token's start to the last token's end, at every depth. */
  function Locate(ls: seq<Lexeme>, s: Span): Located
    decreases s, 0
  {
    Located(StartOf(ls, s.from), EndBefore(ls, s.to), LocateAll(ls, s.inner))
  }

  function LocateAll(ls: seq<Lexeme>, spans: seq<Span>): seq<Located>
    decreases spans, 1
  {
    if spans == [] then [] else [Locate(ls, spans[0])] + LocateAll(ls, spans[1..])
  }

  /** A location has characters and holds its children's, one after the other. */
  predicate Nests(l: Located)
    decreases l, 0
  {
    l.start < l.end && InOrder(l.start, l.inner, l.end)
  }

  predicate InOrder(lo: nat, locs: seq<Located>, hi: nat)
    decreases locs, 1
  {
    if locs == [] then lo <= hi
    else Nests(locs[0]) && lo <= locs[0].start && InOrder(locs[0].end, locs[1..], hi)
  }

  /** The first `n` tokens have characters and stand one after the other. */
  predicate Rising(ls: seq<Lexeme>, n: nat) {
    && n <= |ls|
    && (forall i | 0 <= i < n :: ls[i].start < ls[i].end)
    && (forall i, j | 0 <= i < j < n :: ls[i].end <= ls[j].start)
  }

  lemma {:induction false} LexemesRise(body: string, from: nat)
    requires from <= |body|
    ensures Rising(Lexemes(body, from), Length(Tokens(body, from))) && forall l <- Lexemes(body, from) ::
            from <= l.start
    decreases |body| - from
  {
    match NextLexeme(body, from)
    case None =>
    case Some(l) =>
      if l.token != EndOfFile {
        LexemesRise(body, l.end);
        var rest := Lexemes(body, l.end);
        assert Lexemes(body, from) == [l] + rest;
        assert forall j | 0 <= j < |rest| :: rest[j] in rest;
      }
  }

  lemma {:induction false} NestedLocated(ls: seq<Lexeme>, n: nat, s: Span)
    requires Rising(ls, n) && Nested(s) && s.to <= n
    ensures Nests(Locate(ls, s))
    decreases s, 0
  {
    OrderedLocated(ls, n, s.from, s.inner, s.to, ls[s.from].start);
  }

  lemma {:induction false} OrderedLocated(
    ls: seq<Lexeme>, n: nat, lo: nat, spans: seq<Span>, hi: nat, start: nat)
    requires Rising(ls, n) && Ordered(lo, spans, hi) && lo <= hi <= n && 0 < hi
    requires (lo < hi && start == ls[lo].start) || (0 < lo && start == ls[lo - 1].end)
    ensures InOrder(start, LocateAll(ls, spans), ls[hi - 1].end)
    decreases spans, 1
  {
    if spans != [] {
      var s, rest := spans[0], spans[1..];
      OrderedEnd(s.to, rest, hi);
      NestedLocated(ls, n, s);
      OrderedLocated(ls, n, s.to, rest, hi, ls[s.to - 1].end);
      InOrderBefore(start, Locate(ls, s), LocateAll(ls, rest), ls[hi - 1].end);
    }
  }

  lemma InOrderBefore(lo: nat, l: Located, rest: seq<Located>, hi: nat)
    requires Nests(l) && lo <= l.start && InOrder(l.end, rest, hi)
    ensures InOrder(lo, [l] + rest, hi)
  {
    assert ([l] + rest)[1..] == rest;
  }

  /** The location of every node of a parsed document contains those of its children, which are disjoint and
      in order; the document's own runs from the first token to the last before the end of the file. */
  lemma LocationsNest(source: string)
    requires Parse(source).Some?
    ensures var definitions := Parse(source).value.definitions;
            var keywords := Keywords(Tokens(source, 0));
            var rest := ParseDefinitions(Tokens(source, 0)).rest;
            && |keywords| == |definitions| && Tokens(source, 0) == WrittenAll(definitions, keywords, rest)
            && DocumentSpan(definitions, keywords).to == Length(Tokens(source, 0)) - Length(rest)
            && DocumentSpan(definitions, keywords).to <= |Lexemes(source, 0)|
            && Nests(Locate(Lexemes(source, 0), DocumentSpan(definitions, keywords)))
  {
    var ts := Tokens(source, 0);
    var r := ParseDefinitions(ts);
    DocumentSound(ts);
    DocumentFits(r.node, Keywords(ts), r.rest);
    LexemesRise(source, 0);
    NestedLocated(Lexemes(source, 0), Length(ts), DocumentSpan(r.node, Keywords(ts)));
  }

  // ----- locations put together as nodes are built ------------------------------------------------

  lemma {:induction false} LocateBoth(ls: seq<Lexeme>, a: seq<Span>, b: seq<Span>)
    ensures LocateAll(ls, a + b) == LocateAll(ls, a) + LocateAll(ls, b)
    decreases |a|
  {
    if a == [] {
      assert a + b == b;
    } else {
      assert (a + b)[1..] == a[1..] + b;
      LocateBoth(ls, a[1..], b);
    }
  }

  lemma LocateOne(ls: seq<Lexeme>, s: Span)
    ensures LocateAll(ls, [s]) == [Locate(ls, s)]
  {
    assert [s][1..] == [];
  }

  lemma LocateTwo(ls: seq<Lexeme>, s: Span, t: Span)
    ensures LocateAll(ls, [s, t]) == [Locate(ls, s), Locate(ls, t)]
  {
    assert [s, t] == [s] + [t];
    LocateBoth(ls, [s], [t]);
    LocateOne(ls, s);
    LocateOne(ls, t);
  }

  /** The list's locations after one more of its children. */
  lemma LocateMore(ls: seq<Lexeme>, spans: seq<Span>, s: Span)
    ensures LocateAll(ls, spans + [s]) == LocateAll(ls, spans) + [Locate(ls, s)]
  {
    LocateBoth(ls, spans, [s]);
    LocateOne(ls, s);
  }

  lemma EndOfList(s: Span, spans: seq<Span>, at: nat)
    ensures End([s] + spans, at) == End(spans, s.to)
  {
  }

  lemma {:induction false} ValueAppended(items: seq<Value>, v: Value, at: nat)
    ensures var spans := ValueSpans(items, at);
            ValueSpans(items + [v], at) == spans + [ValueSpan(v, End(spans, at))]
  {
    if items == [] {
      assert items + [v] == [v];
    } else {
      var s := ValueSpan(items[0], at);
      assert (items + [v])[1..] == items[1..] + [v];
      ValueAppended(items[1..], v, s.to);
      EndOfList(s, ValueSpans(items[1..], s.to), at);
    }
  }

  lemma {:induction false} ObjectFieldAppended(fields: seq<ObjectField>, f: ObjectField, at: nat)
    ensures var spans := ObjectFieldSpans(fields, at);
            ObjectFieldSpans(fields + [f], at) == spans + [NamedValueSpan(f.value, End(spans, at))]
  {
    if fields == [] {
      assert fields + [f] == [f];
    } else {
      var s := NamedValueSpan(fields[0].value, at);
      assert (fields + [f])[1..] == fields[1..] + [f];
      ObjectFieldAppended(fields[1..], f, s.to);
      EndOfList(s, ObjectFieldSpans(fields[1..], s.to), at);
    }
  }

  lemma {:induction false} ArgumentAppended(arguments: seq<Argument>, a: Argument, at: nat)
    ensures var spans := ArgumentSpans(arguments, at);
            ArgumentSpans(arguments + [a], at) == spans + [NamedValueSpan(a.value, End(spans, at))]
  {
    if arguments == [] {
      assert arguments + [a] == [a];
    } else {
      var s := NamedValueSpan(arguments[0].value, at);
      assert (arguments + [a])[1..] == arguments[1..] + [a];
      ArgumentAppended(arguments[1..], a, s.to);
      EndOfList(s, ArgumentSpans(arguments[1..], s.to), at);
    }
  }

  lemma {:induction false} DirectiveAppended(directives: seq<Directive>, d: Directive, at: nat)
    ensures var row := DirectivesRow(directives, at);
            DirectivesRow(directives + [d], at) == Then(row, OneSpan(DirectiveSpan(d, row.to)))
  {
    if directives == [] {
      assert directives + [d] == [d];
      assert DirectivesRow([d], at) == Then(OneSpan(DirectiveSpan(d, at)), Row([], DirectiveSpan(d, at).to));
    } else {
      var s := DirectiveSpan(directives[0], at);
      assert (directives + [d])[1..] == directives[1..] + [d];
      DirectiveAppended(directives[1..], d, s.to);
    }
  }

  lemma {:induction false} SelectionAppended(selections: seq<Selection>, v: Selection, at: nat)
    ensures var spans := SelectionSpans(selections, at);
            SelectionSpans(selections + [v], at) == spans + [SelectionSpan(v, End(spans, at))]
  {
    if selections == [] {
      assert selections + [v] == [v];
    } else {
      var s := SelectionSpan(selections[0], at);
      assert (selections + [v])[1..] == selections[1..] + [v];
      SelectionAppended(selections[1..], v, s.to);
      EndOfList(s, SelectionSpans(selections[1..], s.to), at);
    }
  }

  lemma {:induction false} VariableAppended(variables: seq<VariableDefinition>, v: VariableDefinition, at: nat)
    ensures var spans := VariableDefinitionSpans(variables, at);
            VariableDefinitionSpans(variables + [v], at) == spans + [VariableDefinitionSpan(v, End(spans, at))]
  {
    if variables == [] {
      assert variables + [v] == [v];
    } else {
      var s := VariableDefinitionSpan(variables[0], at);
      assert (variables + [v])[1..] == variables[1..] + [v];
      VariableAppended(variables[1..], v, s.to);
      EndOfList(s, VariableDefinitionSpans(variables[1..], s.to), at);
    }
  }

  lemma {:induction false} DefinitionAppended(
    definitions: seq<Definition>, keywords: seq<bool>, d: Definition, keyword: bool, at: nat)
    requires |keywords| == |definitions|
    ensures var spans := DefinitionSpans(definitions, keywords, at);
            DefinitionSpans(definitions + [d], keywords + [keyword], at)
            == spans + [DefinitionSpan(d, keyword, End(spans, at))]
  {
    if definitions == [] {
      assert definitions + [d] == [d] && keywords + [keyword] == [keyword];
      assert [d][1..] == [] && [keyword][1..] == [];
    } else {
      var s := DefinitionSpan(definitions[0], keywords[0], at);
      assert (definitions + [d])[1..] == definitions[1..] + [d];
      assert (keywords + [keyword])[1..] == keywords[1..] + [keyword];
      DefinitionAppended(definitions[1..], keywords[1..], d, keyword, s.to);
      EndOfList(s, DefinitionSpans(definitions[1..], keywords[1..], s.to), at);
    }
  }

  /** All tokens of the span have been consumed, up to `index`, and the location is its own. */
  ghost predicate Lies(ls: seq<Lexeme>, loc: Located, s: Span, index: nat) {
    index == s.to && loc == Locate(ls, s)
  }

  ghost predicate LieAll(ls: seq<Lexeme>, locs: seq<Located>, r: Row, index: nat) {
    index == r.to && locs == LocateAll(ls, r.spans)
  }

  /** The locations of a list's children, with the closing token after them. */
  ghost predicate Closed(ls: seq<Lexeme>, locs: seq<Located>, spans: seq<Span>, at: nat, index: nat) {
    index == End(spans, at) + 1 && locs == LocateAll(ls, spans)
  }

  /** The locations of a list's children so far. */
  ghost predicate Listed(ls: seq<Lexeme>, locs: seq<Located>, spans: seq<Span>, at: nat, index: nat) {
    locs == LocateAll(ls, spans) && index == End(spans, at)
  }

  lemma ListedMore(ls: seq<Lexeme>, locs: seq<Located>, spans: seq<Span>, at: nat, index: nat, s: Span)
    requires Listed(ls, locs, spans, at, index)
    ensures Listed(ls, locs + [Locate(ls, s)], spans + [s], at, s.to)
  {
    LocateMore(ls, spans, s);
  }

  lemma Joined(ls: seq<Lexeme>, a: seq<Located>, r: Row, b: seq<Located>, more: Row)
    requires a == LocateAll(ls, r.spans) && b == LocateAll(ls, more.spans)
    ensures a + b == LocateAll(ls, Then(r, more).spans)
  {
    LocateBoth(ls, r.spans, more.spans);
  }

  /** Directives and braces after the `front` of a node. */
  function BodyRow(front: Row, body: (seq<Directive>, seq<Selection>)): Row {
    var marked := Then(front, DirectivesRow(body.0, front.to));
    Then(marked, OneSpan(SelectionSetSpan(body.1, marked.to)))
  }

  /** The location of a node that takes the tokens from `at` up to `to`. */
  function Taking(ls: seq<Lexeme>, at: nat, to: nat, inner: seq<Located>): Located {
    Located(StartOf(ls, at), EndBefore(ls, to), inner)
  }

  /** A bracketed list of at least one child: the first, whose span is `s`, and the others. */
  lemma ManyLocated(ls: seq<Lexeme>, s: Span, spans: seq<Span>, at: nat)
    ensures LocateAll(ls, [s] + spans) == [Locate(ls, s)] + LocateAll(ls, spans)
    ensures End([s] + spans, at) == End(spans, s.to)
  {
    LocateBoth(ls, [s], spans);
    LocateOne(ls, s);
    EndOfList(s, spans, at);
  }

  lemma EnclosedLies(ls: seq<Lexeme>, spans: seq<Span>, at: nat, inner: seq<Located>, to: nat)
    requires Closed(ls, inner, spans, at + 1, to)
    ensures Lies(ls, Taking(ls, at, to, inner), Enclosed(at, spans), to)
  {
  }

  lemma ArgumentsLie(
    ls: seq<Lexeme>, a: Argument, more: seq<Argument>, at: nat, mid: nat, loc: Located, others: seq<Located>, to: nat)
    requires Lies(ls, loc, NamedValueSpan(a.value, at), mid) && Closed(ls, others, ArgumentSpans(more, mid), mid, to)
    ensures Closed(ls, [loc] + others, ArgumentSpans([a] + more, at), at, to)
  {
    assert ([a] + more)[1..] == more;
    ManyLocated(ls, NamedValueSpan(a.value, at), ArgumentSpans(more, mid), at);
  }

  lemma VariablesLie(
    ls: seq<Lexeme>, v: VariableDefinition, more: seq<VariableDefinition>, at: nat, mid: nat, loc: Located,
    others: seq<Located>, to: nat)
    requires Lies(ls, loc, VariableDefinitionSpan(v, at), mid)
    requires Closed(ls, others, VariableDefinitionSpans(more, mid), mid, to)
    ensures Closed(ls, [loc] + others, VariableDefinitionSpans([v] + more, at), at, to)
  {
    assert ([v] + more)[1..] == more;
    ManyLocated(ls, VariableDefinitionSpan(v, at), VariableDefinitionSpans(more, mid), at);
  }

  lemma SelectionsLie(
    ls: seq<Lexeme>, v: Selection, more: seq<Selection>, at: nat, mid: nat, loc: Located, others: seq<Located>, to: nat)
    requires Lies(ls, loc, SelectionSpan(v, at), mid) && Closed(ls, others, SelectionSpans(more, mid), mid, to)
    ensures Closed(ls, [loc] + others, SelectionSpans([v] + more, at), at, to)
  {
    assert ([v] + more)[1..] == more;
    ManyLocated(ls, SelectionSpan(v, at), SelectionSpans(more, mid), at);
  }

  lemma DirectiveLies(ls: seq<Lexeme>, d: Directive, at: nat, named: Located, given: seq<Located>, to: nat)
    requires Lies(ls, named, NameSpan(at + 1), at + 2) && LieAll(ls, given, ArgumentsRow(d.arguments, at + 2), to)
    ensures Lies(ls, Taking(ls, at, to, [named] + given), DirectiveSpan(d, at), to)
  {
    ManyLocated(ls, NameSpan(at + 1), ArgumentsRow(d.arguments, at + 2).spans, at);
  }

  /** A field's names, arguments and directives. */
  lemma FieldFrontLies(
    ls: seq<Lexeme>, s: Selection, at: nat, names: seq<Located>, i: nat, given: seq<Located>, j: nat,
    marks: seq<Located>, to: nat)
    requires s.Field? && LieAll(ls, names, FieldNameRow(s.alias, at), i)
    requires LieAll(ls, given, ArgumentsRow(s.arguments, i), j) && LieAll(ls, marks, DirectivesRow(s.directives, j), to)
    ensures LieAll(ls, names + given + marks, FieldFront(s, at), to)
  {
    var front := FieldNameRow(s.alias, at);
    Joined(ls, names, front, given, ArgumentsRow(s.arguments, i));
    front := Then(front, ArgumentsRow(s.arguments, i));
    Joined(ls, names + given, front, marks, DirectivesRow(s.directives, j));
  }

  lemma FieldLies(ls: seq<Lexeme>, s: Selection, at: nat, front: seq<Located>, mid: nat, inner: seq<Located>, to: nat)
    requires s.Field? && LieAll(ls, front, FieldFront(s, at), mid)
    requires if s.selectionSet.SelectionSet? then
               inner != [] && inner[..|inner| - 1] == front
               && Lies(ls, inner[|inner| - 1], SelectionSetSpan(s.selectionSet.selections, mid), to)
             else inner == front && mid == to
    ensures Lies(ls, Taking(ls, at, to, inner), SelectionSpan(s, at), to)
  {
    if s.selectionSet.SelectionSet? {
      LocateMore(ls, FieldFront(s, at).spans, SelectionSetSpan(s.selectionSet.selections, mid));
      assert inner == front + [inner[|inner| - 1]];
    }
  }

  lemma SpreadLies(ls: seq<Lexeme>, s: Selection, at: nat, named: Located, marks: seq<Located>, to: nat)
    requires s.FragmentSpread?
    requires Lies(ls, named, NameSpan(at + 1), at + 2) && LieAll(ls, marks, DirectivesRow(s.directives, at + 2), to)
    ensures Lies(ls, Taking(ls, at, to, [named] + marks), SelectionSpan(s, at), to)
  {
    ManyLocated(ls, NameSpan(at + 1), DirectivesRow(s.directives, at + 2).spans, at);
  }

  lemma InlineLies(ls: seq<Lexeme>, s: Selection, at: nat, inner: seq<Located>, to: nat)
    requires s.InlineFragment?
    requires LieAll(ls, inner, BodyRow(ConditionRow(s.condition, at + 1), (s.directives, s.selections)), to)
    ensures Lies(ls, Taking(ls, at, to, inner), SelectionSpan(s, at), to)
  {
  }

  /** A variable and its type. */
  function TypedRow(name: string, varType: TypeRef, at: nat): Row {
    Then(OneSpan(ValueSpan(Variable(name), at)), OneSpan(TypeSpan(varType, at + 3)))
  }

  lemma VariableDefinitionLies(
    ls: seq<Lexeme>, v: VariableDefinition, at: nat, front: seq<Located>, i: nat, given: seq<Located>, j: nat,
    marks: seq<Located>, to: nat)
    requires LieAll(ls, front, TypedRow(v.name, v.varType, at), i)
    requires LieAll(ls, given, DefaultRow(v.default, i), j) && LieAll(ls, marks, DirectivesRow(v.directives, j), to)
    ensures Lies(ls, Taking(ls, at, to, front + given + marks), VariableDefinitionSpan(v, at), to)
  {
    var row := TypedRow(v.name, v.varType, at);
    Joined(ls, front, row, given, DefaultRow(v.default, i));
    row := Then(row, DefaultRow(v.default, i));
    Joined(ls, front + given, row, marks, DirectivesRow(v.directives, j));
  }

  /** An operation's name and variables. */
  function OperationHeadRow(head: (Option<string>, seq<VariableDefinition>), at: nat): Row {
    var named := OptionalNameRow(head.0, at);
    Then(named, VariablesRow(head.1, named.to))
  }

  /** A fragment definition's name and type condition. */
  function HeadRow(at: nat): Row { Then(OneSpan(NameSpan(at + 1)), OneSpan(NamedTypeSpan(at + 3))) }

  lemma FragmentLies(ls: seq<Lexeme>, d: Definition, at: nat, inner: seq<Located>, to: nat)
    requires d.Fragment? && LieAll(ls, inner, BodyRow(HeadRow(at), (d.directives, d.selections)), to)
    ensures Lies(ls, Taking(ls, at, to, inner), DefinitionSpan(d, true, at), to)
  {
  }

  lemma DocumentLies(
    ls: seq<Lexeme>, definitions: seq<Definition>, keywords: seq<bool>, locs: seq<Located>, to: nat)
    requires |keywords| == |definitions| && Listed(ls, locs, DefinitionSpans(definitions, keywords, 0), 0, to)
    ensures Lies(ls, Taking(ls, 0, to, locs), DocumentSpan(definitions, keywords), to)
  {
  }

  /** An operation that begins with a keyword: the keyword, then its children. */
  lemma KeywordSpan(d: Definition, at: nat)
    requires d.Operation?
    ensures var row := OperationRow(d, at + 1); DefinitionSpan(d, true, at) == Span(at, row.to, row.spans)
  {
    if IsShorthand(d) { assert OperationRow(d, at + 1).spans == [SelectionSetSpan(d.selections, at + 1)]; }
  }

  // ----- the tokens of a text as a list --------------------------------------------------------------

  /** The tokens from the one at `i` on; the list breaks off where a character cannot be lexed. */
  function StreamAt(ls: seq<Lexeme>, i: nat): Stream
    decreases |ls| - i
  {
    if i >= |ls| then Last(Invalid)
    else if ls[i].token.EndOfFile? then Last(EndOfFile)
    else Put(ls[i].token, StreamAt(ls, i + 1))
  }

  lemma {:induction false} StreamAtIsRest(ls: seq<Lexeme>, i: nat)
    requires i <= |ls|
    ensures StreamAt(ls, i) == StreamOf(ls[i..])
    decreases |ls| - i
  {
    if i < |ls| {
      StreamAtIsRest(ls, i + 1);
      assert ls[i..][1..] == ls[i + 1..];
    }
  }

  lemma ListIsStream(body: string)
    ensures StreamAt(Lexemes(body, 0), 0) == Tokens(body, 0)
  {
    StreamAtIsRest(Lexemes(body, 0), 0);
    assert Lexemes(body, 0)[0..] == Lexemes(body, 0);
    StreamOfLexemes(body, 0);
  }

  /** The token lexed after the one at `i`, if any, is the next of the list. */
  ghost predicate NextAt(body: string, ls: seq<Lexeme>, i: nat) {
    i < |ls| && !ls[i].token.EndOfFile? ==>
      && ls[i].end <= |body|
      && NextLexeme(body, ls[i].end) == if i + 1 < |ls| then Some(ls[i + 1]) else None
  }

  ghost predicate Lists(body: string, ls: seq<Lexeme>) {
    forall i: nat {:trigger NextAt(body, ls, i)} :: NextAt(body, ls, i)
  }

  lemma LexemesAreListed(body: string)
    ensures Lists(body, Lexemes(body, 0))
  {
    forall i: nat ensures NextAt(body, Lexemes(body, 0), i) {
      if i < |Lexemes(body, 0)| && Lexemes(body, 0)[i].token != EndOfFile { NextIsListed(body, 0, i); }
    }
  }

  lemma {:induction false} NextIsListed(body: string, from: nat, i: nat)
    requires from <= |body| && i < |Lexemes(body, from)| && Lexemes(body, from)[i].token != EndOfFile
    ensures NextAt(body, Lexemes(body, from), i)
    decreases |body| - from
  {
    var ls, l := Lexemes(body, from), NextLexeme(body, from).value;
    assert ls[1..] == Lexemes(body, l.end);
    if i > 0 {
      NextIsListed(body, l.end, i - 1);
    } else if ls[1..] != [] {
      assert ls[1] == NextLexeme(body, l.end).value;
    }
  }
}
