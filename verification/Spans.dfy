/** The tokens each node of a parsed document spans: from its first token to its last, with its children's
    spans inside, in order and without overlap. */
module Spans {
  import opened Ast
  import opened Lexer
  import opened Parser
  import opened Grammar
  import opened GrammarSound

  // ----- which tokens a node spans --------------------------------------------------------------

  /** Tokens `from` up to but not including `to`, and the spans of the node's children in order. */
  datatype Span = Span(from: nat, to: nat, inner: seq<Span>)

  /** Every span is non-empty, with its children inside it, ordered and disjoint. */
  predicate Nested(s: Span)
    decreases s, 0
  {
    s.from < s.to && Ordered(s.from, s.inner, s.to)
  }

  predicate Ordered(lo: nat, spans: seq<Span>, hi: nat)
    decreases spans, 1
  {
    if spans == [] then lo <= hi
    else lo <= spans[0].from && Nested(spans[0]) && Ordered(spans[0].to, spans[1..], hi)
  }

  function End(spans: seq<Span>, at: nat): nat { if spans == [] then at else spans[|spans| - 1].to }

  function NameSpan(at: nat): Span { Span(at, at + 1, []) }

  function ValueSpan(v: Value, at: nat): Span
    decreases v, 0
  {
    match v
    case Variable(_) => Span(at, at + 2, [NameSpan(at + 1)])
    case ListValue(items) => Enclosed(at, ValueSpans(items, at + 1))
    case ObjectValue(fields) => Enclosed(at, ObjectFieldSpans(fields, at + 1))
    case _ => Span(at, at + 1, [])
  }

  /** An opening bracket at `at`, the children, a closing bracket. */
  function Enclosed(at: nat, inner: seq<Span>): Span { Span(at, End(inner, at + 1) + 1, inner) }

  function ValueSpans(items: seq<Value>, at: nat): seq<Span>
    decreases items, 1
  {
    if items == [] then [] else var s := ValueSpan(items[0], at); [s] + ValueSpans(items[1..], s.to)
  }

  /** An object field or an argument: a name, a colon, a value. */
  function NamedValueSpan(v: Value, at: nat): Span
    decreases v, 1
  {
    var value := ValueSpan(v, at + 2);
    Span(at, value.to, [NameSpan(at), value])
  }

  function ObjectFieldSpans(fields: seq<ObjectField>, at: nat): seq<Span>
    decreases fields, 2
  {
    if fields == [] then [] else var s := NamedValueSpan(fields[0].value, at); [s] + ObjectFieldSpans(fields[1..], s.to)
  }

  function ArgumentSpans(arguments: seq<Argument>, at: nat): seq<Span> {
    if arguments == [] then [] else var s := NamedValueSpan(arguments[0].value, at);
    [s] + ArgumentSpans(arguments[1..], s.to)
  }

  /** Children that stand side by side, and the token after them. */
  datatype Row = Row(spans: seq<Span>, to: nat)

  function Then(r: Row, more: Row): Row { Row(r.spans + more.spans, more.to) }

  function OneSpan(s: Span): Row { Row([s], s.to) }

  function ArgumentsRow(arguments: seq<Argument>, at: nat): Row {
    if arguments == [] then Row([], at)
    else var spans := ArgumentSpans(arguments, at + 1); Row(spans, End(spans, at + 1) + 1)
  }

  function DirectiveSpan(d: Directive, at: nat): Span {
    var arguments := ArgumentsRow(d.arguments, at + 2);
    Span(at, arguments.to, [NameSpan(at + 1)] + arguments.spans)
  }

  function DirectivesRow(directives: seq<Directive>, at: nat): Row {
    if directives == [] then Row([], at)
    else var s := DirectiveSpan(directives[0], at); Then(OneSpan(s), DirectivesRow(directives[1..], s.to))
  }

  function TypeSpan(t: TypeRef, at: nat): Span {
    match t
    case NamedType(_) => Span(at, at + 1, [NameSpan(at)])
    case ListType(u) => var inner := TypeSpan(u, at + 1); Span(at, inner.to + 1, [inner])
    case NonNull(u) => var inner := TypeSpan(u, at); Span(at, inner.to + 1, [inner])
  }

  function NamedTypeSpan(at: nat): Span { Span(at, at + 1, [NameSpan(at)]) }

  function FieldNameRow(alias: Option<string>, at: nat): Row {
    if alias.None? then OneSpan(NameSpan(at)) else Row([NameSpan(at), NameSpan(at + 2)], at + 3)
  }

  function ConditionRow(condition: Option<string>, at: nat): Row {
    if condition.None? then Row([], at) else OneSpan(NamedTypeSpan(at + 1))
  }

  function SelectionSpan(s: Selection, at: nat): Span
    decreases s, 0
  {
    match s
    case Field(_, alias, arguments, directives, sub) =>
      var names := FieldNameRow(alias, at);
      var given := ArgumentsRow(arguments, names.to);
      var marks := DirectivesRow(directives, given.to);
      var front := Then(Then(names, given), marks);
      var row := if sub.SelectionSet? then Then(front, OneSpan(SelectionSetSpan(sub.selections, front.to))) else front;
      Span(at, row.to, row.spans)
    case FragmentSpread(_, directives) =>
      var row := Then(OneSpan(NameSpan(at + 1)), DirectivesRow(directives, at + 2));
      Span(at, row.to, row.spans)
    case InlineFragment(condition, directives, selections) =>
      var front := ConditionRow(condition, at + 1);
      var marked := Then(front, DirectivesRow(directives, front.to));
      var row := Then(marked, OneSpan(SelectionSetSpan(selections, marked.to)));
      Span(at, row.to, row.spans)
  }

  function SelectionSetSpan(selections: seq<Selection>, at: nat): Span
    decreases selections, 2
  {
    Enclosed(at, SelectionSpans(selections, at + 1))
  }

  function SelectionSpans(selections: seq<Selection>, at: nat): seq<Span>
    decreases selections, 1
  {
    if selections == [] then [] else var s := SelectionSpan(selections[0], at);
    [s] + SelectionSpans(selections[1..], s.to)
  }

  function DefaultRow(default: Option<Value>, at: nat): Row {
    if default.None? then Row([], at) else OneSpan(ValueSpan(default.value, at + 1))
  }

  function VariableDefinitionSpan(v: VariableDefinition, at: nat): Span {
    var front := Then(OneSpan(ValueSpan(Variable(v.name), at)), OneSpan(TypeSpan(v.varType, at + 3)));
    var valued := Then(front, DefaultRow(v.default, front.to));
    var row := Then(valued, DirectivesRow(v.directives, valued.to));
    Span(at, row.to, row.spans)
  }

  function VariableDefinitionSpans(variables: seq<VariableDefinition>, at: nat): seq<Span> {
    if variables == [] then []
    else var s := VariableDefinitionSpan(variables[0], at); [s] + VariableDefinitionSpans(variables[1..], s.to)
  }

  function VariablesRow(variables: seq<VariableDefinition>, at: nat): Row {
    if variables == [] then Row([], at)
    else var spans := VariableDefinitionSpans(variables, at + 1); Row(spans, End(spans, at + 1) + 1)
  }

  function OptionalNameRow(name: Option<string>, at: nat): Row {
    if name.None? then Row([], at) else OneSpan(NameSpan(at))
  }

  /** What follows an operation's type. */
  function OperationRow(d: Definition, at: nat): Row
    requires d.Operation?
  {
    var named := OptionalNameRow(d.name, at);
    var given := Then(named, VariablesRow(d.variables, named.to));
    var marked := Then(given, DirectivesRow(d.directives, given.to));
    Then(marked, OneSpan(SelectionSetSpan(d.selections, marked.to)))
  }

  /** `keyword` tells whether a bare selection set has the keyword `query` in front of it. */
  function DefinitionSpan(d: Definition, keyword: bool, at: nat): Span {
    match d
    case Operation(_, _, _, _, selections) =>
      if IsShorthand(d) then
        var body := SelectionSetSpan(selections, if keyword then at + 1 else at);
        Span(at, body.to, [body])
      else
        var row := OperationRow(d, at + 1);
        Span(at, row.to, row.spans)
    case Fragment(_, _, directives, selections) =>
      var front := Then(OneSpan(NameSpan(at + 1)), OneSpan(NamedTypeSpan(at + 3)));
      var marked := Then(front, DirectivesRow(directives, front.to));
      var row := Then(marked, OneSpan(SelectionSetSpan(selections, marked.to)));
      Span(at, row.to, row.spans)
  }

  function DefinitionSpans(definitions: seq<Definition>, keywords: seq<bool>, at: nat): seq<Span>
    requires |keywords| == |definitions|
  {
    if definitions == [] then []
    else
      var s := DefinitionSpan(definitions[0], keywords[0], at);
      [s] + DefinitionSpans(definitions[1..], keywords[1..], s.to)
  }

  // ----- spans nest and are as long as their nodes' tokens ------------------------------------------

  /** How many tokens come before the last one. */
  function Length(ts: Stream): nat { if ts.Last? then 0 else 1 + Length(ts.rest) }

  /** The span starts at `at`, nests, and takes the tokens by which `ts` is longer than `rest`. */
  predicate Fits(s: Span, at: nat, ts: Stream, rest: Stream) {
    s.from == at && Nested(s) && Length(ts) == Length(rest) + (s.to - at)
  }

  predicate RowFits(r: Row, at: nat, ts: Stream, rest: Stream) {
    Ordered(at, r.spans, r.to) && at <= r.to && Length(ts) == Length(rest) + (r.to - at)
  }

  lemma {:induction false} OrderedEnd(lo: nat, spans: seq<Span>, hi: nat)
    requires Ordered(lo, spans, hi)
    ensures lo <= End(spans, lo) <= hi && Ordered(lo, spans, End(spans, lo))
    decreases |spans|
  {
    if spans != [] {
      OrderedEnd(spans[0].to, spans[1..], hi);
      if spans[1..] != [] { assert spans[1..][|spans[1..]| - 1] == spans[|spans| - 1]; }
    }
  }

  lemma {:induction false} OrderedBoth(lo: nat, a: seq<Span>, mid: nat, b: seq<Span>, hi: nat)
    requires Ordered(lo, a, mid) && Ordered(mid, b, hi)
    ensures Ordered(lo, a + b, hi)
    decreases |a|
  {
    if a == [] {
      assert a + b == b;
      OrderedFrom(lo, mid, b, hi);
    } else {
      OrderedBoth(a[0].to, a[1..], mid, b, hi);
      assert (a + b)[1..] == a[1..] + b;
    }
  }

  lemma OrderedFrom(lo: nat, mid: nat, b: seq<Span>, hi: nat)
    requires lo <= mid && Ordered(mid, b, hi)
    ensures Ordered(lo, b, hi)
  {
  }

  lemma OneOrdered(lo: nat, s: Span, rest: seq<Span>, hi: nat)
    requires lo <= s.from && Nested(s) && Ordered(s.to, rest, hi)
    ensures Ordered(lo, [s] + rest, hi)
  {
    assert ([s] + rest)[1..] == rest;
  }

  lemma OneFits(s: Span, lo: nat)
    requires lo <= s.from && Nested(s)
    ensures Ordered(lo, [s], s.to)
  {
    assert [s] + [] == [s];
    OneOrdered(lo, s, [], s.to);
  }

  lemma RowsFit(r: Row, more: Row, at: nat, ts: Stream, mid: Stream, rest: Stream)
    requires RowFits(r, at, ts, mid) && RowFits(more, r.to, mid, rest)
    ensures RowFits(Then(r, more), at, ts, rest)
  {
    OrderedBoth(at, r.spans, r.to, more.spans, more.to);
  }

  lemma SpanRow(s: Span, at: nat, ts: Stream, rest: Stream)
    requires Fits(s, at, ts, rest)
    ensures RowFits(OneSpan(s), at, ts, rest)
  {
    OneFits(s, at);
  }

  /** Brackets around children that fit. */
  lemma EnclosedFits(inner: seq<Span>, at: nat, ts: Stream, rest: Stream)
    requires Ordered(at + 1, inner, End(inner, at + 1))
             && Length(ts) == 1 + Length(rest) + (End(inner, at + 1) - (at + 1))
    requires at + 1 <= End(inner, at + 1)
    ensures forall open :: Fits(Enclosed(at, inner), at, Put(open, ts), rest)
  {
    OrderedFrom(at, at + 1, inner, End(inner, at + 1));
    Widen(at, inner, End(inner, at + 1), End(inner, at + 1) + 1);
  }

  lemma {:induction false} Widen(lo: nat, spans: seq<Span>, hi: nat, more: nat)
    requires Ordered(lo, spans, hi) && hi <= more
    ensures Ordered(lo, spans, more)
    decreases |spans|
  {
    if spans != [] { Widen(spans[0].to, spans[1..], hi, more); }
  }

  lemma NameFits(at: nat, name: string, rest: Stream)
    ensures Fits(NameSpan(at), at, Put(Name(name), rest), rest)
  {
  }

  lemma {:induction false} ValueFits(v: Value, at: nat, rest: Stream)
    ensures Fits(ValueSpan(v, at), at, ValueThen(v, rest), rest)
    decreases v, 0
  {
    match v
    case Variable(_) => OneFits(NameSpan(at + 1), at);
    case ListValue(items) =>
      ValuesFit(items, at + 1, rest);
      EnclosedFits(ValueSpans(items, at + 1), at, ValuesThen(items, rest), rest);
    case ObjectValue(fields) =>
      ObjectFieldsFit(fields, at + 1, rest);
      EnclosedFits(ObjectFieldSpans(fields, at + 1), at, ObjectFieldsThen(fields, rest), rest);
    case _ =>
  }

  /** Children one after the other up to a closing bracket. */
  predicate ListFits(spans: seq<Span>, at: nat, ts: Stream, rest: Stream) {
    Ordered(at, spans, End(spans, at)) && at <= End(spans, at) && Length(ts) == 1 + Length(rest) + (End(spans, at) - at)
  }

  lemma ListStep(s: Span, spans: seq<Span>, at: nat, ts: Stream, mid: Stream, rest: Stream)
    requires Fits(s, at, ts, mid) && ListFits(spans, s.to, mid, rest)
    ensures ListFits([s] + spans, at, ts, rest)
  {
    assert End([s] + spans, at) == End(spans, s.to);
    OneOrdered(at, s, spans, End(spans, s.to));
  }

  lemma {:induction false} ValuesFit(items: seq<Value>, at: nat, rest: Stream)
    ensures ListFits(ValueSpans(items, at), at, ValuesThen(items, rest), rest)
    decreases items, 1
  {
    if items != [] {
      var s := ValueSpan(items[0], at);
      ValueFits(items[0], at, ValuesThen(items[1..], rest));
      ValuesFit(items[1..], s.to, rest);
      ListStep(s, ValueSpans(items[1..], s.to), at, ValuesThen(items, rest), ValuesThen(items[1..], rest), rest);
    }
  }

  lemma {:induction false} NamedValueFits(name: string, v: Value, at: nat, rest: Stream)
    ensures Fits(NamedValueSpan(v, at), at, Put(Name(name), Put(Colon, ValueThen(v, rest))), rest)
    decreases v, 1
  {
    ValueFits(v, at + 2, rest);
    var value := ValueSpan(v, at + 2);
    OneFits(value, at + 1);
    OneOrdered(at, NameSpan(at), [value], value.to);
    assert [NameSpan(at)] + [value] == [NameSpan(at), value];
  }

  lemma {:induction false} ObjectFieldsFit(fields: seq<ObjectField>, at: nat, rest: Stream)
    ensures ListFits(ObjectFieldSpans(fields, at), at, ObjectFieldsThen(fields, rest), rest)
    decreases fields, 2
  {
    if fields != [] {
      var s := NamedValueSpan(fields[0].value, at);
      NamedValueFits(fields[0].name, fields[0].value, at, ObjectFieldsThen(fields[1..], rest));
      ObjectFieldsFit(fields[1..], s.to, rest);
      ListStep(s, ObjectFieldSpans(fields[1..], s.to), at, ObjectFieldsThen(fields, rest),
          ObjectFieldsThen(fields[1..], rest), rest);
    }
  }

  lemma {:induction false} ArgumentListFits(arguments: seq<Argument>, at: nat, rest: Stream)
    ensures ListFits(ArgumentSpans(arguments, at), at, MoreArgumentsThen(arguments, rest), rest)
  {
    if arguments != [] {
      var s := NamedValueSpan(arguments[0].value, at);
      NamedValueFits(arguments[0].name, arguments[0].value, at, MoreArgumentsThen(arguments[1..], rest));
      ArgumentListFits(arguments[1..], s.to, rest);
      ListStep(s, ArgumentSpans(arguments[1..], s.to), at, MoreArgumentsThen(arguments, rest),
          MoreArgumentsThen(arguments[1..], rest), rest);
    }
  }

  /** A parenthesized list as a row. */
  lemma ParenthesesFit(spans: seq<Span>, at: nat, ts: Stream, rest: Stream)
    requires ListFits(spans, at + 1, ts, rest)
    ensures RowFits(Row(spans, End(spans, at + 1) + 1), at, Put(ParenL, ts), rest)
  {
    OrderedFrom(at, at + 1, spans, End(spans, at + 1));
    Widen(at, spans, End(spans, at + 1), End(spans, at + 1) + 1);
  }

  lemma ArgumentsFit(arguments: seq<Argument>, at: nat, rest: Stream)
    ensures RowFits(ArgumentsRow(arguments, at), at, ArgumentsThen(arguments, rest), rest)
  {
    if arguments != [] {
      ArgumentListFits(arguments, at + 1, rest);
      ParenthesesFit(ArgumentSpans(arguments, at + 1), at, MoreArgumentsThen(arguments, rest), rest);
    }
  }

  /** A node whose children begin after `skip` tokens of its own. */
  lemma RowInside(r: Row, at: nat, skip: nat, ts: Stream, inner: Stream, rest: Stream)
    requires RowFits(r, at + skip, inner, rest) && Length(ts) == skip + Length(inner) && at < r.to
    ensures Fits(Span(at, r.to, r.spans), at, ts, rest)
  {
    OrderedFrom(at, at + skip, r.spans, r.to);
  }

  lemma DirectiveFits(d: Directive, at: nat, rest: Stream)
    ensures Fits(DirectiveSpan(d, at), at, DirectiveThen(d, rest), rest)
  {
    var more := ArgumentsThen(d.arguments, rest);
    ArgumentsFit(d.arguments, at + 2, rest);
    NameFits(at + 1, d.name, more);
    SpanRow(NameSpan(at + 1), at + 1, Put(Name(d.name), more), more);
    var row := ArgumentsRow(d.arguments, at + 2);
    RowsFit(OneSpan(NameSpan(at + 1)), row, at + 1, Put(Name(d.name), more), more, rest);
    RowInside(Then(OneSpan(NameSpan(at + 1)), row), at, 1, DirectiveThen(d, rest), Put(Name(d.name), more), rest);
  }

  lemma {:induction false} DirectivesFit(directives: seq<Directive>, at: nat, rest: Stream)
    ensures RowFits(DirectivesRow(directives, at), at, DirectivesThen(directives, rest), rest)
  {
    if directives != [] {
      var s := DirectiveSpan(directives[0], at);
      var more := DirectivesThen(directives[1..], rest);
      DirectiveFits(directives[0], at, more);
      SpanRow(s, at, DirectivesThen(directives, rest), more);
      DirectivesFit(directives[1..], s.to, rest);
      RowsFit(OneSpan(s), DirectivesRow(directives[1..], s.to), at, DirectivesThen(directives, rest), more, rest);
    }
  }

  lemma {:induction false} TypeFits(t: TypeRef, at: nat, rest: Stream)
    ensures Fits(TypeSpan(t, at), at, TypeThen(t, rest), rest)
  {
    match t
    case NamedType(_) => OneFits(NameSpan(at), at);
    case ListType(u) =>
      TypeFits(u, at + 1, Put(BracketR, rest));
      InnerFits(TypeSpan(u, at + 1), at);
    case NonNull(u) =>
      TypeFits(u, at, Put(Bang, rest));
      InnerFits(TypeSpan(u, at), at);
  }

  lemma InnerFits(s: Span, at: nat)
    requires at <= s.from && Nested(s)
    ensures Nested(Span(at, s.to + 1, [s]))
  {
    OneFits(s, at);
    Widen(at, [s], s.to, s.to + 1);
  }

  lemma FieldNameFits(alias: Option<string>, name: string, at: nat, rest: Stream)
    ensures RowFits(FieldNameRow(alias, at), at, FieldNameThen(alias, name, rest), rest)
  {
    if alias.None? {
      NameFits(at, name, rest);
      SpanRow(NameSpan(at), at, Put(Name(name), rest), rest);
    } else {
      OneFits(NameSpan(at + 2), at + 1);
      OneOrdered(at, NameSpan(at), [NameSpan(at + 2)], at + 3);
      assert [NameSpan(at)] + [NameSpan(at + 2)] == [NameSpan(at), NameSpan(at + 2)];
      assert Length(Put(Colon, Put(Name(name), rest))) == 2 + Length(rest);
    }
  }

  lemma NamedTypeNested(at: nat)
    ensures Nested(NamedTypeSpan(at))
  {
    OneFits(NameSpan(at), at);
  }

  lemma ConditionFits(condition: Option<string>, at: nat, rest: Stream)
    ensures RowFits(ConditionRow(condition, at), at, ConditionThen(condition, rest), rest)
  {
    if condition.Some? {
      NamedTypeNested(at + 1);
      OneFits(NamedTypeSpan(at + 1), at);
    }
  }

  lemma {:induction false} SelectionFits(s: Selection, at: nat, rest: Stream)
    ensures Fits(SelectionSpan(s, at), at, SelectionThen(s, rest), rest)
    decreases s, 0
  {
    match s
    case Field(_, _, _, _, sub) =>
      if sub.SelectionSet? {
        SelectionSetFits(sub.selections, FieldFront(s, at).to, rest);
        FieldFits(s, at, SelectionSetThen(sub.selections, rest), rest);
      } else {
        FieldFits(s, at, rest, rest);
      }
    case FragmentSpread(name, directives) => SpreadFits(name, directives, at, rest);
    case InlineFragment(condition, directives, selections) =>
      var front := ConditionRow(condition, at + 1);
      SelectionSetFits(selections, DirectivesRow(directives, front.to).to, rest);
      InlineFits(s, at, SelectionSetThen(selections, rest), rest);
  }

  /** Everything of a field up to its braces. */
  function FieldFront(s: Selection, at: nat): Row
    requires s.Field?
  {
    var names := FieldNameRow(s.alias, at);
    var given := ArgumentsRow(s.arguments, names.to);
    Then(Then(names, given), DirectivesRow(s.directives, given.to))
  }

  lemma FieldFrontFits(s: Selection, at: nat, body: Stream)
    requires s.Field?
    ensures RowFits(FieldFront(s, at), at, FieldNameThen(s.alias, s.name,
              ArgumentsThen(s.arguments, DirectivesThen(s.directives, body))), body)
    ensures at < FieldFront(s, at).to
  {
    var marks := DirectivesThen(s.directives, body);
    var given := ArgumentsThen(s.arguments, marks);
    var ts := FieldNameThen(s.alias, s.name, given);
    var names := FieldNameRow(s.alias, at);
    var row := ArgumentsRow(s.arguments, names.to);
    FieldNameFits(s.alias, s.name, at, given);
    ArgumentsFit(s.arguments, names.to, marks);
    RowsFit(names, row, at, ts, given, marks);
    DirectivesFit(s.directives, row.to, body);
    RowsFit(Then(names, row), DirectivesRow(s.directives, row.to), at, ts, marks, body);
  }

  /** A field whose braces, if any, fit. */
  lemma FieldFits(s: Selection, at: nat, body: Stream, rest: Stream)
    requires s.Field?
    requires if s.selectionSet.SelectionSet? then
               body == SelectionSetThen(s.selectionSet.selections, rest)
               && Fits(SelectionSetSpan(s.selectionSet.selections, FieldFront(s, at).to), FieldFront(s, at).to, body,
                  rest)
             else body == rest
    ensures Fits(SelectionSpan(s, at), at, SelectionThen(s, rest), rest)
  {
    var ts := SelectionThen(s, rest);
    var front := FieldFront(s, at);
    FieldFrontFits(s, at, body);
    if s.selectionSet.SelectionSet? {
      var braces := SelectionSetSpan(s.selectionSet.selections, front.to);
      SpanRow(braces, front.to, body, rest);
      RowsFit(front, OneSpan(braces), at, ts, body, rest);
      RowInside(Then(front, OneSpan(braces)), at, 0, ts, ts, rest);
    } else {
      RowInside(front, at, 0, ts, ts, rest);
    }
  }

  lemma SpreadFits(name: string, directives: seq<Directive>, at: nat, rest: Stream)
    ensures Fits(SelectionSpan(FragmentSpread(name, directives), at), at,
              SelectionThen(FragmentSpread(name, directives), rest), rest)
  {
    var marks := DirectivesThen(directives, rest);
    NameFits(at + 1, name, marks);
    SpanRow(NameSpan(at + 1), at + 1, Put(Name(name), marks), marks);
    DirectivesFit(directives, at + 2, rest);
    var row := DirectivesRow(directives, at + 2);
    RowsFit(OneSpan(NameSpan(at + 1)), row, at + 1, Put(Name(name), marks), marks, rest);
    RowInside(Then(OneSpan(NameSpan(at + 1)), row), at, 1, Put(Spread, Put(Name(name), marks)), Put(Name(name), marks),
        rest);
  }

  /** Directives and then braces, after a row that fits. */
  lemma MarkedBodyFits(front: Row, directives: seq<Directive>, selections: seq<Selection>, at: nat, ts: Stream,
      rest: Stream)
    requires var body := SelectionSetThen(selections, rest);
             var to := DirectivesRow(directives, front.to).to;
             && RowFits(front, at, ts, DirectivesThen(directives, body))
             && Fits(SelectionSetSpan(selections, to), to, body, rest)
    ensures var marked := Then(front, DirectivesRow(directives, front.to));
            var row := Then(marked, OneSpan(SelectionSetSpan(selections, marked.to)));
            RowFits(row, at, ts, rest) && at < row.to
  {
    var body := SelectionSetThen(selections, rest);
    var marks := DirectivesRow(directives, front.to);
    DirectivesFit(directives, front.to, body);
    RowsFit(front, marks, at, ts, DirectivesThen(directives, body), body);
    var braces := SelectionSetSpan(selections, marks.to);
    SpanRow(braces, marks.to, body, rest);
    RowsFit(Then(front, marks), OneSpan(braces), at, ts, body, rest);
  }

  lemma InlineFits(s: Selection, at: nat, body: Stream, rest: Stream)
    requires s.InlineFragment? && body == SelectionSetThen(s.selections, rest)
    requires var to := DirectivesRow(s.directives, ConditionRow(s.condition, at + 1).to).to;
             Fits(SelectionSetSpan(s.selections, to), to, body, rest)
    ensures Fits(SelectionSpan(s, at), at, SelectionThen(s, rest), rest)
  {
    var marks := DirectivesThen(s.directives, body);
    var inner := ConditionThen(s.condition, marks);
    var front := ConditionRow(s.condition, at + 1);
    ConditionFits(s.condition, at + 1, marks);
    MarkedBodyFits(front, s.directives, s.selections, at + 1, inner, rest);
    var marked := Then(front, DirectivesRow(s.directives, front.to));
    RowInside(Then(marked, OneSpan(SelectionSetSpan(s.selections, marked.to))), at, 1, Put(Spread, inner), inner, rest);
  }

  lemma {:induction false} SelectionSetFits(selections: seq<Selection>, at: nat, rest: Stream)
    ensures Fits(SelectionSetSpan(selections, at), at, SelectionSetThen(selections, rest), rest)
    decreases selections, 2
  {
    SelectionsFit(selections, at + 1, rest);
    EnclosedFits(SelectionSpans(selections, at + 1), at, MoreSelectionsThen(selections, rest), rest);
  }

  lemma {:induction false} SelectionsFit(selections: seq<Selection>, at: nat, rest: Stream)
    ensures ListFits(SelectionSpans(selections, at), at, MoreSelectionsThen(selections, rest), rest)
    decreases selections, 1
  {
    if selections != [] {
      var s := SelectionSpan(selections[0], at);
      var more := MoreSelectionsThen(selections[1..], rest);
      SelectionFits(selections[0], at, more);
      SelectionsFit(selections[1..], s.to, rest);
      ListStep(s, SelectionSpans(selections[1..], s.to), at, MoreSelectionsThen(selections, rest), more, rest);
    }
  }

  lemma DefaultFits(default: Option<Value>, at: nat, rest: Stream)
    ensures RowFits(DefaultRow(default, at), at, DefaultThen(default, rest), rest)
  {
    if default.Some? {
      ValueFits(default.value, at + 1, rest);
      OneFits(ValueSpan(default.value, at + 1), at);
    }
  }

  lemma VariableFront(v: VariableDefinition, at: nat, rest: Stream)
    ensures var front := Then(OneSpan(ValueSpan(Variable(v.name), at)), OneSpan(TypeSpan(v.varType, at + 3)));
            RowFits(front, at, Put(Dollar, Put(Name(v.name), Put(Colon, TypeThen(v.varType, rest)))), rest)
                && at < front.to
  {
    var typed := TypeThen(v.varType, rest);
    var variable, t := ValueSpan(Variable(v.name), at), TypeSpan(v.varType, at + 3);
    ValueFits(Variable(v.name), at, Put(Colon, typed));
    SpanRow(variable, at, ValueThen(Variable(v.name), Put(Colon, typed)), Put(Colon, typed));
    TypeFits(v.varType, at + 3, rest);
    OneFits(t, at + 2);
    RowsFit(OneSpan(variable), OneSpan(t), at, ValueThen(Variable(v.name), Put(Colon, typed)), Put(Colon, typed), rest);
  }

  lemma VariableDefinitionFits(v: VariableDefinition, at: nat, rest: Stream)
    ensures Fits(VariableDefinitionSpan(v, at), at, VariableDefinitionThen(v, rest), rest)
  {
    var marks := DirectivesThen(v.directives, rest);
    var valued := DefaultThen(v.default, marks);
    var ts := VariableDefinitionThen(v, rest);
    var front := Then(OneSpan(ValueSpan(Variable(v.name), at)), OneSpan(TypeSpan(v.varType, at + 3)));
    VariableFront(v, at, valued);
    var row := DefaultRow(v.default, front.to);
    DefaultFits(v.default, front.to, marks);
    RowsFit(front, row, at, ts, valued, marks);
    DirectivesFit(v.directives, row.to, rest);
    RowsFit(Then(front, row), DirectivesRow(v.directives, row.to), at, ts, marks, rest);
    RowInside(Then(Then(front, row), DirectivesRow(v.directives, row.to)), at, 0, ts, ts, rest);
  }

  lemma {:induction false} VariableListFits(variables: seq<VariableDefinition>, at: nat, rest: Stream)
    ensures ListFits(VariableDefinitionSpans(variables, at), at, MoreVariablesThen(variables, rest), rest)
  {
    if variables != [] {
      var s := VariableDefinitionSpan(variables[0], at);
      var more := MoreVariablesThen(variables[1..], rest);
      VariableDefinitionFits(variables[0], at, more);
      VariableListFits(variables[1..], s.to, rest);
      ListStep(s, VariableDefinitionSpans(variables[1..], s.to), at, MoreVariablesThen(variables, rest), more, rest);
    }
  }

  lemma VariablesFit(variables: seq<VariableDefinition>, at: nat, rest: Stream)
    ensures RowFits(VariablesRow(variables, at), at, VariablesThen(variables, rest), rest)
  {
    if variables != [] {
      VariableListFits(variables, at + 1, rest);
      ParenthesesFit(VariableDefinitionSpans(variables, at + 1), at, MoreVariablesThen(variables, rest), rest);
    }
  }

  lemma OptionalNameFits(name: Option<string>, at: nat, rest: Stream)
    ensures RowFits(OptionalNameRow(name, at), at, OptionalNameThen(name, rest), rest)
  {
    if name.Some? {
      NameFits(at, name.value, rest);
      SpanRow(NameSpan(at), at, Put(Name(name.value), rest), rest);
    }
  }

  lemma {:induction false} DefinitionFits(d: Definition, keyword: bool, at: nat, rest: Stream)
    ensures Fits(DefinitionSpan(d, keyword, at), at, WrittenThen(d, keyword, rest), rest)
  {
    if d.Fragment? {
      FragmentFits(d, at, rest);
    } else if IsShorthand(d) {
      var start := if keyword then at + 1 else at;
      SelectionSetFits(d.selections, start, rest);
      OneFits(SelectionSetSpan(d.selections, start), at);
    } else {
      OperationFits(d, at, rest);
    }
  }

  lemma OperationFits(d: Definition, at: nat, rest: Stream)
    requires d.Operation? && !IsShorthand(d)
    ensures Fits(DefinitionSpan(d, true, at), at, DefinitionThen(d, rest), rest)
    ensures DefinitionSpan(d, true, at) == DefinitionSpan(d, false, at)
  {
    var body := SelectionSetThen(d.selections, rest);
    var marks := DirectivesThen(d.directives, body);
    var given := VariablesThen(d.variables, marks);
    var inner := OptionalNameThen(d.name, given);
    var named := OptionalNameRow(d.name, at + 1);
    var listed := VariablesRow(d.variables, named.to);
    OptionalNameFits(d.name, at + 1, given);
    VariablesFit(d.variables, named.to, marks);
    RowsFit(named, listed, at + 1, inner, given, marks);
    var front := Then(named, listed);
    SelectionSetFits(d.selections, DirectivesRow(d.directives, front.to).to, rest);
    MarkedBodyFits(front, d.directives, d.selections, at + 1, inner, rest);
    var marked := Then(front, DirectivesRow(d.directives, front.to));
    RowInside(Then(marked, OneSpan(SelectionSetSpan(d.selections, marked.to))), at, 1, Put(Name(d.operation), inner),
        inner, rest);
  }

  lemma FragmentFits(d: Definition, at: nat, rest: Stream)
    requires d.Fragment?
    ensures Fits(DefinitionSpan(d, true, at), at, DefinitionThen(d, rest), rest)
    ensures DefinitionSpan(d, true, at) == DefinitionSpan(d, false, at)
  {
    var body := SelectionSetThen(d.selections, rest);
    var marks := DirectivesThen(d.directives, body);
    var onward := Put(Name("on"), Put(Name(d.condition), marks));
    var inner := Put(Name(d.fragmentName), onward);
    NameFits(at + 1, d.fragmentName, onward);
    SpanRow(NameSpan(at + 1), at + 1, inner, onward);
    NamedTypeNested(at + 3);
    OneFits(NamedTypeSpan(at + 3), at + 2);
    var front := Then(OneSpan(NameSpan(at + 1)), OneSpan(NamedTypeSpan(at + 3)));
    RowsFit(OneSpan(NameSpan(at + 1)), OneSpan(NamedTypeSpan(at + 3)), at + 1, inner, onward, marks);
    SelectionSetFits(d.selections, DirectivesRow(d.directives, front.to).to, rest);
    MarkedBodyFits(front, d.directives, d.selections, at + 1, inner, rest);
    var marked := Then(front, DirectivesRow(d.directives, front.to));
    RowInside(Then(marked, OneSpan(SelectionSetSpan(d.selections, marked.to))), at, 1, Put(Name("fragment"), inner),
        inner, rest);
  }

  lemma {:induction false} DefinitionsFit(definitions: seq<Definition>, keywords: seq<bool>, at: nat, rest: Stream)
    requires |keywords| == |definitions|
    ensures var spans := DefinitionSpans(definitions, keywords, at);
            RowFits(Row(spans, End(spans, at)), at, WrittenAll(definitions, keywords, rest), rest)
  {
    if definitions != [] {
      var s := DefinitionSpan(definitions[0], keywords[0], at);
      var more := WrittenAll(definitions[1..], keywords[1..], rest);
      DefinitionFits(definitions[0], keywords[0], at, more);
      SpanRow(s, at, WrittenAll(definitions, keywords, rest), more);
      DefinitionsFit(definitions[1..], keywords[1..], s.to, rest);
      var spans := DefinitionSpans(definitions[1..], keywords[1..], s.to);
      RowsFit(OneSpan(s), Row(spans, End(spans, s.to)), at, WrittenAll(definitions, keywords, rest), more, rest);
    }
  }

  // ----- whole documents ----------------------------------------------------------------------

  /** The span of a whole document. */
  function DocumentSpan(definitions: seq<Definition>, keywords: seq<bool>): Span
    requires |keywords| == |definitions|
  {
    var spans := DefinitionSpans(definitions, keywords, 0);
    Span(0, End(spans, 0), spans)
  }

  lemma DocumentFits(definitions: seq<Definition>, keywords: seq<bool>, rest: Stream)
    requires |keywords| == |definitions| && definitions != []
    ensures Nested(DocumentSpan(definitions, keywords))
    ensures Length(WrittenAll(definitions, keywords, rest)) == Length(rest) + DocumentSpan(definitions, keywords).to
  {
    DefinitionsFit(definitions, keywords, 0, rest);
    var spans := DefinitionSpans(definitions, keywords, 0);
    OrderedEnd(spans[0].to, spans[1..], End(spans, 0));
  }
}
