/** Parsing what was printed gives the document back, character for character of the printed text. */
module RoundTrip {
  import opened Ast
  import opened Lexer
  import opened LexedText
  import opened Parser
  import opened Grammar
  import opened GrammarSound
  import opened Printer
  import opened PrintedText

  /** Punctuators around an inner text read as themselves and delimit it. */
  lemma Enclosed(body: string, pos: nat, open: string, inner: string, close: string, k: nat, t1: Token, t2: Token)
    returns (at: nat)
    requires Here(body, pos, open + inner + close, k)
    requires |open| == |close| == 1 && Punctuator(open[0]) == Some(t1) && Punctuator(close[0]) == Some(t2)
    ensures Here(body, at, inner, k) && Delimited(body, Past(at, inner, k))
    ensures Tokens(body, pos) == Put(t1, Tokens(body, at))
    ensures Tokens(body, Past(at, inner, k)) == Put(t2, Tokens(body, Past(pos, open + inner + close, k)))
    ensures inner == "" ==> Past(at, inner, k) == at
  {
    Split(body, pos, open + inner, close, k);
    Split(body, pos, open, inner, k);
    at := Past(pos, open, k);
    MarkReads(body, pos, open, k, t1);
    MarkReads(body, Past(at, inner, k), close, k, t2);
    PunctuatorDelimits(close[0], t2);
    StartsDelimited(body, Past(at, inner, k), close, k);
  }

  lemma PunctuatorDelimits(c: char, t: Token)
    requires Punctuator(c) == Some(t)
    ensures IsDelimiter(c)
  {
  }

  // ----- values ---------------------------------------------------------------------------------

  lemma {:induction false} ValueReads(v: Value, body: string, pos: nat, k: nat, rest: Stream)
    requires Here(body, pos, PrintValue(v), k) && Delimited(body, Past(pos, PrintValue(v), k))
    requires Tokens(body, Past(pos, PrintValue(v), k)) == rest && AllPrintable(ValueThen(v, rest))
    ensures Tokens(body, pos) == ValueThen(v, rest)
    decreases v, 0
  {
    match v
    case Variable(name) => PrefixedWordReads("$", name, body, pos, k, Dollar);
    case IntValue(lexeme) => WordReads(body, pos, lexeme, k, Int(lexeme));
    case FloatValue(lexeme) => WordReads(body, pos, lexeme, k, Float(lexeme));
    case StringValue(text, block) => StringReads(body, pos, text, k);
    case BooleanValue(truth) => WordReads(body, pos, PrintValue(v), k, Name(PrintValue(v)));
    case NullValue => WordReads(body, pos, "null", k, Name("null"));
    case EnumValue(name) => WordReads(body, pos, name, k, Name(name));
    case ListValue(items) => ListReads(items, body, pos, k, rest);
    case ObjectValue(fields) => ObjectReads(fields, body, pos, k, rest);
  }

  lemma {:induction false} ListReads(items: seq<Value>, body: string, pos: nat, k: nat, rest: Stream)
    requires var text := "[" + Join(PrintValues(items), ", ") + "]";
             Here(body, pos, text, k) && Tokens(body, Past(pos, text, k)) == rest
    requires AllPrintable(ValuesThen(items, rest))
    ensures Tokens(body, pos) == Put(BracketL, ValuesThen(items, rest))
    decreases items, 1
  {
    var at := Enclosed(body, pos, "[", Join(PrintValues(items), ", "), "]", k, BracketL, BracketR);
    if items != [] { ItemsRead(items, body, at, k, rest); }
  }

  lemma {:induction false} ItemsRead(items: seq<Value>, body: string, pos: nat, k: nat, rest: Stream)
    requires items != []
    requires var text := Join(PrintValues(items), ", ");
             Here(body, pos, text, k) && Delimited(body, Past(pos, text, k))
                 && Tokens(body, Past(pos, text, k)) == Put(BracketR, rest)
    requires AllPrintable(ValuesThen(items, rest))
    ensures Tokens(body, pos) == ValuesThen(items, rest)
    decreases items, 0
  {
    var first, more := PrintValue(items[0]), PrintValues(items[1..]);
    JoinOne(first, more, ", ");
    if |items| == 1 {
      assert items[1..] == [] && ValuesThen(items[1..], rest) == Put(BracketR, rest);
      ValueReads(items[0], body, pos, k, Put(BracketR, rest));
    } else {
      var after := SeparatorReads(body, pos, first, ", ", Join(more, ", "), k);
      PrintableAfterValue(items[0], ValuesThen(items[1..], rest));
      ItemsRead(items[1..], body, after, k, rest);
      ValueReads(items[0], body, pos, k, ValuesThen(items[1..], rest));
    }
  }

  /** A blank separator delimits what is before it and disappears. */
  lemma SeparatorReads(body: string, pos: nat, first: string, sep: string, more: string, k: nat) returns (after: nat)
    requires Here(body, pos, first + sep + more, k) && sep != "" && AllBlank(sep)
    ensures Here(body, pos, first, k) && Delimited(body, Past(pos, first, k))
    ensures Here(body, after, more, k) && Past(pos, first + sep + more, k) == Past(after, more, k)
    ensures Tokens(body, Past(pos, first, k)) == Tokens(body, after)
  {
    Split(body, pos, first + sep, more, k);
    Split(body, pos, first, sep, k);
    GapReads(body, Past(pos, first, k), sep, k);
    StartsDelimited(body, Past(pos, first, k), sep, k);
    after := Past(Past(pos, first, k), sep, k);
  }

  lemma {:induction false} PrintableAfterValue(v: Value, rest: Stream)
    requires AllPrintable(ValueThen(v, rest))
    ensures AllPrintable(rest)
    decreases v, 1
  {
    match v
    case ListValue(items) => PrintableAfterValues(items, rest);
    case ObjectValue(fields) => PrintableAfterFields(fields, rest);
    case Variable(_) => assert AllPrintable(ValueThen(v, rest).rest);
    case _ =>
  }

  lemma {:induction false} PrintableAfterValues(items: seq<Value>, rest: Stream)
    requires AllPrintable(ValuesThen(items, rest))
    ensures AllPrintable(rest)
    decreases items, 0
  {
    if items != [] {
      PrintableAfterValue(items[0], ValuesThen(items[1..], rest));
      PrintableAfterValues(items[1..], rest);
    }
  }

  lemma {:induction false} PrintableAfterFields(fields: seq<ObjectField>, rest: Stream)
    requires AllPrintable(ObjectFieldsThen(fields, rest))
    ensures AllPrintable(rest)
    decreases fields, 0
  {
    if fields != [] {
      var more := ObjectFieldsThen(fields[1..], rest);
      assert AllPrintable(ObjectFieldsThen(fields, rest).rest);
      PrintableAfterValue(fields[0].value, more);
      PrintableAfterFields(fields[1..], rest);
    }
  }

  /** A name and the colon after it. */
  lemma KeyReads(name: string, more: string, body: string, pos: nat, k: nat) returns (at: nat)
    requires Here(body, pos, name + ": " + more, k) && Printable(Name(name))
    ensures Here(body, at, more, k) && Past(at, more, k) == Past(pos, name + ": " + more, k)
    ensures Tokens(body, pos) == Put(Name(name), Put(Colon, Tokens(body, at)))
  {
    Split(body, pos, name + ": ", more, k);
    Split(body, pos, name, ": ", k);
    var colon := Past(pos, name, k);
    MarkReads(body, colon, ": ", k, Colon);
    StartsDelimited(body, colon, ": ", k);
    WordReads(body, pos, name, k, Name(name));
    at := Past(colon, ": ", k);
  }

  /** `name: value`, as an argument and as an object field. */
  lemma {:induction false} NamedValueReads(name: string, v: Value, body: string, pos: nat, k: nat, rest: Stream)
    requires var text := name + ": " + PrintValue(v);
             Here(body, pos, text, k) && Delimited(body, Past(pos, text, k)) && Tokens(body, Past(pos, text, k)) == rest
    requires Printable(Name(name)) && AllPrintable(ValueThen(v, rest))
    ensures Tokens(body, pos) == Put(Name(name), Put(Colon, ValueThen(v, rest)))
    decreases v, 1
  {
    var at := KeyReads(name, PrintValue(v), body, pos, k);
    ValueReads(v, body, at, k, rest);
  }

  lemma {:induction false} ObjectReads(fields: seq<ObjectField>, body: string, pos: nat, k: nat, rest: Stream)
    requires var text := "{" + Join(PrintObjectFields(fields), ", ") + "}";
             Here(body, pos, text, k) && Tokens(body, Past(pos, text, k)) == rest
    requires AllPrintable(ObjectFieldsThen(fields, rest))
    ensures Tokens(body, pos) == Put(BraceL, ObjectFieldsThen(fields, rest))
    decreases fields, 1
  {
    var at := Enclosed(body, pos, "{", Join(PrintObjectFields(fields), ", "), "}", k, BraceL, BraceR);
    if fields != [] { FieldsRead(fields, body, at, k, rest); }
  }

  lemma {:induction false} FieldsRead(fields: seq<ObjectField>, body: string, pos: nat, k: nat, rest: Stream)
    requires fields != []
    requires var text := Join(PrintObjectFields(fields), ", ");
             Here(body, pos, text, k) && Delimited(body, Past(pos, text, k))
                 && Tokens(body, Past(pos, text, k)) == Put(BraceR, rest)
    requires AllPrintable(ObjectFieldsThen(fields, rest))
    ensures Tokens(body, pos) == ObjectFieldsThen(fields, rest)
    decreases fields, 0
  {
    var name, v := fields[0].name, fields[0].value;
    var first, more := name + ": " + PrintValue(v), PrintObjectFields(fields[1..]);
    var next := ObjectFieldsThen(fields[1..], rest);
    assert AllPrintable(ObjectFieldsThen(fields, rest).rest) && AllPrintable(ValueThen(v, next));
    JoinOne(first, more, ", ");
    if |fields| == 1 {
      assert fields[1..] == [];
      NamedValueReads(name, v, body, pos, k, Put(BraceR, rest));
    } else {
      var after := SeparatorReads(body, pos, first, ", ", Join(more, ", "), k);
      PrintableAfterValue(v, next);
      FieldsRead(fields[1..], body, after, k, rest);
      NamedValueReads(name, v, body, pos, k, next);
    }
  }

  // ----- arguments and directives ---------------------------------------------------------------

  lemma {:induction false} PrintableAfterArguments(arguments: seq<Argument>, rest: Stream)
    requires AllPrintable(MoreArgumentsThen(arguments, rest))
    ensures AllPrintable(Put(ParenR, rest)) && AllPrintable(rest)
  {
    if arguments != [] {
      var more := MoreArgumentsThen(arguments[1..], rest);
      assert AllPrintable(MoreArgumentsThen(arguments, rest).rest);
      PrintableAfterValue(arguments[0].value, more);
      PrintableAfterArguments(arguments[1..], rest);
    }
  }

  lemma {:induction false} ArgumentListReads(arguments: seq<Argument>, body: string, pos: nat, k: nat, rest: Stream)
    requires arguments != []
    requires var text := Join(PrintArgumentList(arguments), ", ");
             Here(body, pos, text, k) && Delimited(body, Past(pos, text, k))
                 && Tokens(body, Past(pos, text, k)) == Put(ParenR, rest)
    requires AllPrintable(MoreArgumentsThen(arguments, rest))
    ensures Tokens(body, pos) == MoreArgumentsThen(arguments, rest)
  {
    var a, more := arguments[0], PrintArgumentList(arguments[1..]);
    var next := MoreArgumentsThen(arguments[1..], rest);
    assert AllPrintable(MoreArgumentsThen(arguments, rest).rest) && AllPrintable(ValueThen(a.value, next));
    JoinOne(PrintArgument(a), more, ", ");
    if |arguments| == 1 {
      assert arguments[1..] == [];
      NamedValueReads(a.name, a.value, body, pos, k, Put(ParenR, rest));
    } else {
      var after := SeparatorReads(body, pos, PrintArgument(a), ", ", Join(more, ", "), k);
      PrintableAfterValue(a.value, next);
      ArgumentListReads(arguments[1..], body, after, k, rest);
      NamedValueReads(a.name, a.value, body, pos, k, next);
    }
  }

  /** Printing something is printing at least one character. */
  lemma JoinedLength(items: seq<string>, sep: string)
    requires items != [] && items[0] != ""
    ensures Join(items, sep) != ""
  {
  }

  lemma ArgumentsRead(arguments: seq<Argument>, body: string, pos: nat, k: nat, rest: Stream)
    requires Here(body, pos, PrintArguments(arguments), k)
             && Tokens(body, Past(pos, PrintArguments(arguments), k)) == rest
    requires AllPrintable(ArgumentsThen(arguments, rest))
    ensures Tokens(body, pos) == ArgumentsThen(arguments, rest)
    ensures AllPrintable(rest)
    ensures Delimited(body, Past(pos, PrintArguments(arguments), k)) ==> Delimited(body, pos)
  {
    if arguments != [] {
      var items := PrintArgumentList(arguments);
      var inner := Join(items, ", ");
      JoinedLength(items, ", ");
      var text := "(" + inner + ")";
      assert PrintArguments(arguments) == text;
      StartsDelimited(body, pos, text, k);
      PrintableAfterArguments(arguments, rest);
      var at := Enclosed(body, pos, "(", inner, ")", k, ParenL, ParenR);
      ArgumentListReads(arguments, body, at, k, rest);
    }
  }

  lemma DirectiveReads(d: Directive, body: string, pos: nat, k: nat, rest: Stream)
    requires Here(body, pos, PrintDirective(d), k) && Delimited(body, Past(pos, PrintDirective(d), k))
    requires Tokens(body, Past(pos, PrintDirective(d), k)) == rest && AllPrintable(DirectiveThen(d, rest))
    ensures Tokens(body, pos) == DirectiveThen(d, rest)
    ensures AllPrintable(rest)
  {
    assert AllPrintable(DirectiveThen(d, rest).rest);
    Split(body, pos, "@" + d.name, PrintArguments(d.arguments), k);
    ArgumentsRead(d.arguments, body, Past(pos, "@" + d.name, k), k, rest);
    PrefixedWordReads("@", d.name, body, pos, k, At);
  }

  /** A name right after a punctuator. */
  lemma PrefixedWordReads(mark: string, name: string, body: string, pos: nat, k: nat, t: Token)
    requires Here(body, pos, mark + name, k) && Delimited(body, Past(pos, mark + name, k))
    requires |mark| == 1 && Punctuator(mark[0]) == Some(t) && Printable(Name(name))
    ensures Tokens(body, pos) == Put(t, Put(Name(name), Tokens(body, Past(pos, mark + name, k))))
  {
    Split(body, pos, mark, name, k);
    WordReads(body, Past(pos, mark, k), name, k, Name(name));
    MarkReads(body, pos, mark, k, t);
  }

  /** A part put after a space, when it is there. */
  function After(part: string): string { if part == "" then "" else " " + part }

  lemma {:induction false} DirectivesNonEmpty(directives: seq<Directive>)
    ensures NonEmpty(PrintDirectiveList(directives)) == PrintDirectiveList(directives)
  {
    if directives != [] {
      DirectivesNonEmpty(directives[1..]);
      assert PrintDirectiveList(directives)[1..] == PrintDirectiveList(directives[1..]);
    }
  }

  lemma DirectivesText(directives: seq<Directive>)
    ensures PrintDirectives(directives) != "" <==> directives != []
    ensures directives != [] ==>
              PrintDirectives(directives) == PrintDirective(directives[0]) + After(PrintDirectives(directives[1..]))
  {
    DirectivesNonEmpty(directives);
    if directives != [] {
      var rest := PrintDirectiveList(directives[1..]);
      DirectivesNonEmpty(directives[1..]);
      JoinOne(PrintDirective(directives[0]), rest, " ");
      if rest != [] { JoinedLength(rest, " "); }
      JoinedLength(PrintDirectiveList(directives), " ");
      SpacedParts(PrintDirective(directives[0]), Join(rest, " "));
    }
  }

  lemma SpacedParts(a: string, b: string)
    ensures a + " " + b == a + (" " + b) && a + "" == a
  {
  }

  /** The space before a part delimits and disappears. */
  lemma SpacedReads(body: string, pos: nat, part: string, k: nat) returns (at: nat)
    requires Here(body, pos, " " + part, k)
    ensures Here(body, at, part, k) && Past(at, part, k) == Past(pos, " " + part, k)
    ensures Tokens(body, pos) == Tokens(body, at) && Delimited(body, pos)
  {
    Split(body, pos, " ", part, k);
    GapReads(body, pos, " ", k);
    StartsDelimited(body, pos, " ", k);
    at := Past(pos, " ", k);
  }

  /** Where the first directive and the further ones stand. */
  lemma DirectivesApart(directives: seq<Directive>, body: string, pos: nat, k: nat) returns (at: nat)
    requires directives != [] && Here(body, pos, After(PrintDirectives(directives)), k)
    ensures var first, more := PrintDirective(directives[0]), After(PrintDirectives(directives[1..]));
            && Here(body, at, first, k) && Here(body, Past(at, first, k), more, k)
            && Past(Past(at, first, k), more, k) == Past(pos, After(PrintDirectives(directives)), k)
    ensures Tokens(body, pos) == Tokens(body, at) && Delimited(body, pos)
  {
    DirectivesText(directives);
    var first, more := PrintDirective(directives[0]), After(PrintDirectives(directives[1..]));
    at := SpacedReads(body, pos, first + more, k);
    Split(body, at, first, more, k);
  }

  /** Directives after a space. */
  lemma {:induction false} DirectivesRead(directives: seq<Directive>, body: string, pos: nat, k: nat, rest: Stream)
    requires var text := After(PrintDirectives(directives));
             Here(body, pos, text, k) && Delimited(body, Past(pos, text, k)) && Tokens(body, Past(pos, text, k)) == rest
    requires AllPrintable(DirectivesThen(directives, rest))
    ensures Tokens(body, pos) == DirectivesThen(directives, rest)
    ensures AllPrintable(rest) && Delimited(body, pos)
  {
    if directives == [] {
      DirectivesText(directives);
    } else {
      var d, next := directives[0], DirectivesThen(directives[1..], rest);
      assert DirectivesThen(directives, rest) == DirectiveThen(d, next);
      var at := DirectivesApart(directives, body, pos, k);
      PrintableAfterDirective(d, next);
      var mid := Past(at, PrintDirective(d), k);
      DirectivesRead(directives[1..], body, mid, k, rest);
      assert Tokens(body, mid) == next;
      DirectiveReads(d, body, at, k, next);
    }
  }

  lemma PrintableAfterDirective(d: Directive, rest: Stream)
    requires AllPrintable(DirectiveThen(d, rest))
    ensures AllPrintable(rest)
  {
    assert AllPrintable(DirectiveThen(d, rest).rest) && AllPrintable(ArgumentsThen(d.arguments, rest));
    if d.arguments != [] { PrintableAfterArguments(d.arguments, rest); }
  }

  lemma PrintableAfterAllArguments(arguments: seq<Argument>, rest: Stream)
    requires AllPrintable(ArgumentsThen(arguments, rest))
    ensures AllPrintable(rest)
  {
    if arguments != [] { PrintableAfterArguments(arguments, rest); }
  }

  lemma {:induction false} PrintableAfterDirectives(directives: seq<Directive>, rest: Stream)
    requires AllPrintable(DirectivesThen(directives, rest))
    ensures AllPrintable(rest)
  {
    if directives != [] {
      PrintableAfterDirective(directives[0], DirectivesThen(directives[1..], rest));
      PrintableAfterDirectives(directives[1..], rest);
    }
  }

  // ----- types ----------------------------------------------------------------------------------

  lemma {:induction false} TypeReads(t: TypeRef, body: string, pos: nat, k: nat, rest: Stream)
    requires Here(body, pos, PrintType(t), k) && Delimited(body, Past(pos, PrintType(t), k))
    requires Tokens(body, Past(pos, PrintType(t), k)) == rest && AllPrintable(TypeThen(t, rest))
    ensures Tokens(body, pos) == TypeThen(t, rest)
    decreases t
  {
    match t
    case NamedType(name) => WordReads(body, pos, name, k, Name(name));
    case ListType(u) =>
      var at := Enclosed(body, pos, "[", PrintType(u), "]", k, BracketL, BracketR);
      TypeReads(u, body, at, k, Put(BracketR, rest));
    case NonNull(u) =>
      Split(body, pos, PrintType(u), "!", k);
      var bang := Past(pos, PrintType(u), k);
      MarkReads(body, bang, "!", k, Bang);
      StartsDelimited(body, bang, "!", k);
      TypeReads(u, body, pos, k, Put(Bang, rest));
  }

  lemma {:induction false} PrintableAfterType(t: TypeRef, rest: Stream)
    requires AllPrintable(TypeThen(t, rest))
    ensures AllPrintable(rest)
    decreases t
  {
    match t
    case NamedType(_) =>
    case ListType(u) => PrintableAfterType(u, Put(BracketR, rest));
    case NonNull(u) => PrintableAfterType(u, Put(Bang, rest));
  }

  // ----- selections -------------------------------------------------------------------------------

  function Afters(parts: seq<string>): string { if parts == [] then "" else After(parts[0]) + Afters(parts[1..]) }

  lemma NonEmptyFirst(first: string, parts: seq<string>)
    ensures NonEmpty([first] + parts) == if first == "" then NonEmpty(parts) else [first] + NonEmpty(parts)
  {
    assert ([first] + parts)[1..] == parts;
    assert [] + NonEmpty(parts) == NonEmpty(parts);
  }

  /** Joining with spaces, as a first part and optional further parts. */
  lemma {:induction false} JoinedParts(first: string, parts: seq<string>)
    requires first != ""
    ensures JoinNonEmpty([first] + parts, " ") == first + Afters(parts)
    decreases |parts|
  {
    NonEmptyFirst(first, parts);
    if parts == [] {
      JoinOne(first, [], " ");
    } else {
      assert [parts[0]] + parts[1..] == parts;
      NonEmptyFirst(parts[0], parts[1..]);
      if parts[0] == "" {
        NonEmptyFirst(first, parts[1..]);
        JoinedParts(first, parts[1..]);
        assert "" + Afters(parts[1..]) == Afters(parts[1..]);
      } else {
        JoinedParts(parts[0], parts[1..]);
        JoinOne(first, NonEmpty(parts), " ");
        Associates(first, parts[0], Afters(parts[1..]));
      }
    }
  }

  lemma Associates(first: string, second: string, more: string)
    ensures first + " " + (second + more) == first + (" " + second + more)
  {
  }

  lemma AftersOne(part: string, parts: seq<string>)
    ensures Afters([part] + parts) == After(part) + Afters(parts)
    ensures parts == [] ==> Afters([part] + parts) == After(part)
  {
    assert ([part] + parts)[1..] == parts;
    assert After(part) + "" == After(part);
  }

  lemma TwoParts(a: string, b: string)
    requires a != ""
    ensures JoinNonEmpty([a, b], " ") == a + After(b)
  {
    JoinedParts(a, [b]);
    AftersOne(b, []);
    assert [a, b] == [a] + [b] && [b] == [b] + [];
  }

  lemma ThreeParts(a: string, b: string, c: string)
    requires a != ""
    ensures JoinNonEmpty([a, b, c], " ") == a + After(b) + After(c)
  {
    JoinedParts(a, [b, c]);
    AftersOne(b, [c]);
    AftersOne(c, []);
    assert [a, b, c] == [a] + [b, c] && [b, c] == [b] + [c] && [c] == [c] + [];
    assert a + (After(b) + After(c)) == a + After(b) + After(c);
  }

  lemma AftersThree(b: string, c: string, d: string)
    ensures Afters([b, c, d]) == After(b) + After(c) + After(d)
  {
    AftersOne(b, [c, d]);
    AftersOne(c, [d]);
    AftersOne(d, []);
    assert [b, c, d] == [b] + [c, d] && [c, d] == [c] + [d] && [d] == [d] + [];
    assert After(b) + (After(c) + After(d)) == After(b) + After(c) + After(d);
  }

  lemma FourParts(a: string, b: string, c: string, d: string)
    requires a != ""
    ensures JoinNonEmpty([a, b, c, d], " ") == a + After(b) + After(c) + After(d)
  {
    JoinedParts(a, [b, c, d]);
    AftersThree(b, c, d);
    assert [a, b, c, d] == [a] + [b, c, d];
    ThreeAfter(a, After(b), After(c), After(d));
  }

  lemma ThreeAfter(a: string, x: string, y: string, z: string)
    ensures a + (x + y + z) == a + x + y + z
  {
  }

  lemma {:induction false} PrintableAfterSelection(s: Selection, rest: Stream)
    requires AllPrintable(SelectionThen(s, rest))
    ensures AllPrintable(rest)
    decreases s, 0
  {
    match s
    case Field(name, alias, arguments, directives, sub) =>
      var body := if sub.SelectionSet? then SelectionSetThen(sub.selections, rest) else rest;
      PrintableInField(s, body);
      if sub.SelectionSet? { PrintableAfterSelections(sub.selections, rest); }
    case FragmentSpread(name, directives) =>
      assert AllPrintable(SelectionThen(s, rest).rest);
      PrintableAfterDirectives(directives, rest);
    case InlineFragment(condition, directives, selections) =>
      PrintableInInline(s, SelectionSetThen(selections, rest));
      PrintableAfterSelections(selections, rest);
  }

  lemma PrintableInField(s: Selection, body: Stream)
    requires s.Field?
    requires AllPrintable(FieldNameThen(s.alias, s.name,
               ArgumentsThen(s.arguments, DirectivesThen(s.directives, body))))
    ensures AllPrintable(body) && AllPrintable(DirectivesThen(s.directives, body))
    ensures AllPrintable(ArgumentsThen(s.arguments, DirectivesThen(s.directives, body)))
    ensures Printable(Name(s.name)) && (s.alias.Some? ==> Printable(Name(s.alias.value)))
  {
    var more := DirectivesThen(s.directives, body);
    var ts := FieldNameThen(s.alias, s.name, ArgumentsThen(s.arguments, more));
    if s.alias.Some? { assert AllPrintable(ts.rest) && AllPrintable(ts.rest.rest); }
    PrintableAfterAllArguments(s.arguments, more);
    PrintableAfterDirectives(s.directives, body);
  }

  lemma PrintableInInline(s: Selection, body: Stream)
    requires s.InlineFragment? && AllPrintable(Put(Spread,
               ConditionThen(s.condition, DirectivesThen(s.directives, body))))
    ensures AllPrintable(body) && AllPrintable(DirectivesThen(s.directives, body))
    ensures s.condition.Some? ==> Printable(Name("on")) && Printable(Name(s.condition.value))
  {
    var ts := ConditionThen(s.condition, DirectivesThen(s.directives, body));
    assert AllPrintable(ts);
    if s.condition.Some? { assert AllPrintable(ts.rest); }
    PrintableAfterDirectives(s.directives, body);
  }

  lemma {:induction false} PrintableAfterSelections(selections: seq<Selection>, rest: Stream)
    requires AllPrintable(MoreSelectionsThen(selections, rest)) || AllPrintable(SelectionSetThen(selections, rest))
    ensures AllPrintable(rest)
    decreases selections, 1
  {
    if selections != [] {
      PrintableAfterSelection(selections[0], MoreSelectionsThen(selections[1..], rest));
      PrintableAfterSelections(selections[1..], rest);
    }
  }

  lemma {:induction false} SelectionReads(s: Selection, body: string, pos: nat, k: nat, rest: Stream)
    requires Here(body, pos, PrintSelection(s), k) && Delimited(body, Past(pos, PrintSelection(s), k))
    requires Tokens(body, Past(pos, PrintSelection(s), k)) == rest && SelectionOk(s)
             && AllPrintable(SelectionThen(s, rest))
    ensures Tokens(body, pos) == SelectionThen(s, rest)
    decreases s, 0
  {
    match s
    case Field(name, alias, arguments, directives, sub) =>
      var braces := if sub.SelectionSet? then SelectionSetThen(sub.selections, rest) else rest;
      PrintableInField(s, braces);
      var at := FieldText(s, body, pos, k);
      if sub.SelectionSet? { BracesRead(sub.selections, body, at, k, rest); }
      FieldHeadReads(s, body, pos, k, braces, at);
    case FragmentSpread(name, directives) => SpreadSelectionReads(s, body, pos, k, rest);
    case InlineFragment(condition, directives, selections) => InlineReads(s, body, pos, k, rest);
  }

  lemma {:induction false} InlineReads(s: Selection, body: string, pos: nat, k: nat, rest: Stream)
    requires s.InlineFragment? && Here(body, pos, PrintSelection(s), k)
    requires Tokens(body, Past(pos, PrintSelection(s), k)) == rest && SelectionSetOk(s.selections)
             && AllPrintable(SelectionThen(s, rest))
    ensures Tokens(body, pos) == SelectionThen(s, rest)
    decreases s.selections, 4
  {
    PrintableInInline(s, SelectionSetThen(s.selections, rest));
    var at := InlineText(s, body, pos, k);
    BracesRead(s.selections, body, at, k, rest);
    InlineHeadReads(s, body, pos, k, SelectionSetThen(s.selections, rest), at);
  }

  function FieldHead(s: Selection): string
    requires s.Field?
  {
    (if s.alias.Some? then s.alias.value + ": " else "") + s.name + PrintArguments(s.arguments)
  }

  function FieldFront(s: Selection): string
    requires s.Field?
  {
    FieldHead(s) + After(PrintDirectives(s.directives))
  }

  function BracesText(s: Selection): string
    requires s.Field?
  {
    After(if s.selectionSet.SelectionSet? then PrintSelectionSet(s.selectionSet.selections) else "")
  }

  /** Where a field's braces, with the space before them, stand. */
  lemma FieldText(s: Selection, body: string, pos: nat, k: nat) returns (at: nat)
    requires s.Field? && Printable(Name(s.name)) && Here(body, pos, PrintSelection(s), k)
    ensures Here(body, pos, FieldFront(s), k) && at == Past(pos, FieldFront(s), k)
    ensures Here(body, at, BracesText(s), k) && Past(at, BracesText(s), k) == Past(pos, PrintSelection(s), k)
  {
    ThreeParts(FieldHead(s), PrintDirectives(s.directives),
               if s.selectionSet.SelectionSet? then PrintSelectionSet(s.selectionSet.selections) else "");
    at := Past(pos, FieldFront(s), k);
    Split(body, pos, FieldFront(s), BracesText(s), k);
  }

  lemma FieldHeadReads(s: Selection, body: string, pos: nat, k: nat, rest: Stream, at: nat)
    requires s.Field? && Here(body, pos, FieldFront(s), k) && at == Past(pos, FieldFront(s), k) && Delimited(body, at)
    requires Tokens(body, at) == rest && AllPrintable(FieldNameThen(s.alias, s.name,
               ArgumentsThen(s.arguments, DirectivesThen(s.directives, rest))))
    ensures Tokens(body, pos) == FieldNameThen(s.alias, s.name,
              ArgumentsThen(s.arguments, DirectivesThen(s.directives, rest)))
  {
    PrintableInField(s, rest);
    var alias := if s.alias.Some? then s.alias.value + ": " else "";
    Split(body, pos, FieldHead(s), After(PrintDirectives(s.directives)), k);
    DirectivesRead(s.directives, body, Past(pos, FieldHead(s), k), k, rest);
    Split(body, pos, alias + s.name, PrintArguments(s.arguments), k);
    ArgumentsRead(s.arguments, body, Past(pos, alias + s.name, k), k, DirectivesThen(s.directives, rest));
    FieldNameReads(s, body, pos, k);
  }

  lemma FieldNameReads(s: Selection, body: string, pos: nat, k: nat)
    requires s.Field? && Printable(Name(s.name)) && (s.alias.Some? ==> Printable(Name(s.alias.value)))
    requires var text := (if s.alias.Some? then s.alias.value + ": " else "") + s.name;
             Here(body, pos, text, k) && Delimited(body, Past(pos, text, k))
    ensures var text := (if s.alias.Some? then s.alias.value + ": " else "") + s.name;
            Tokens(body, pos) == FieldNameThen(s.alias, s.name, Tokens(body, Past(pos, text, k)))
  {
    if s.alias.None? {
      assert "" + s.name == s.name;
      WordReads(body, pos, s.name, k, Name(s.name));
    } else {
      var at := KeyReads(s.alias.value, s.name, body, pos, k);
      WordReads(body, at, s.name, k, Name(s.name));
    }
  }

  lemma SpreadSelectionReads(s: Selection, body: string, pos: nat, k: nat, rest: Stream)
    requires s.FragmentSpread? && Here(body, pos, PrintSelection(s), k)
             && Delimited(body, Past(pos, PrintSelection(s), k))
    requires Tokens(body, Past(pos, PrintSelection(s), k)) == rest && AllPrintable(SelectionThen(s, rest))
    ensures Tokens(body, pos) == SelectionThen(s, rest)
  {
    assert AllPrintable(SelectionThen(s, rest).rest);
    TwoParts("..." + s.name, PrintDirectives(s.directives));
    Split(body, pos, "..." + s.name, After(PrintDirectives(s.directives)), k);
    Split(body, pos, "...", s.name, k);
    DirectivesRead(s.directives, body, Past(pos, "..." + s.name, k), k, rest);
    WordReads(body, Past(pos, "...", k), s.name, k, Name(s.name));
    SpreadReads(body, pos, k);
  }

  function InlineFront(s: Selection): string
    requires s.InlineFragment?
  {
    "..." + After(if s.condition.Some? then "on " + s.condition.value else "") + After(PrintDirectives(s.directives))
  }

  lemma InlineText(s: Selection, body: string, pos: nat, k: nat) returns (at: nat)
    requires s.InlineFragment? && Here(body, pos, PrintSelection(s), k)
    ensures Here(body, pos, InlineFront(s), k) && at == Past(pos, InlineFront(s), k)
    ensures var braces := After(PrintSelectionSet(s.selections));
            Here(body, at, braces, k) && Past(at, braces, k) == Past(pos, PrintSelection(s), k)
  {
    FourParts("...", if s.condition.Some? then "on " + s.condition.value else "", PrintDirectives(s.directives),
              PrintSelectionSet(s.selections));
    at := Past(pos, InlineFront(s), k);
    Split(body, pos, InlineFront(s), After(PrintSelectionSet(s.selections)), k);
  }

  lemma InlineHeadReads(s: Selection, body: string, pos: nat, k: nat, rest: Stream, at: nat)
    requires s.InlineFragment? && Here(body, pos, InlineFront(s), k) && at == Past(pos, InlineFront(s), k)
             && Delimited(body, at)
    requires Tokens(body, at) == rest && AllPrintable(Put(Spread,
               ConditionThen(s.condition, DirectivesThen(s.directives, rest))))
    ensures Tokens(body, pos) == Put(Spread, ConditionThen(s.condition, DirectivesThen(s.directives, rest)))
  {
    PrintableInInline(s, rest);
    var condition := After(if s.condition.Some? then "on " + s.condition.value else "");
    Split(body, pos, "..." + condition, After(PrintDirectives(s.directives)), k);
    Split(body, pos, "...", condition, k);
    DirectivesRead(s.directives, body, Past(pos, "..." + condition, k), k, rest);
    ConditionReads(s.condition, body, Past(pos, "...", k), k);
    SpreadReads(body, pos, k);
  }

  lemma ConditionReads(condition: Option<string>, body: string, pos: nat, k: nat)
    requires condition.Some? ==> Printable(Name("on")) && Printable(Name(condition.value))
    requires var text := After(if condition.Some? then "on " + condition.value else "");
             Here(body, pos, text, k) && Delimited(body, Past(pos, text, k))
    ensures var text := After(if condition.Some? then "on " + condition.value else "");
            Tokens(body, pos) == ConditionThen(condition, Tokens(body, Past(pos, text, k)))
  {
    if condition.Some? {
      assert "on " + condition.value == "on" + " " + condition.value;
      var on := SpacedReads(body, pos, "on" + " " + condition.value, k);
      var name := SeparatorReads(body, on, "on", " ", condition.value, k);
      WordReads(body, name, condition.value, k, Name(condition.value));
      WordReads(body, on, "on", k, Name("on"));
    }
  }

  /** A selection set after a space. */
  lemma {:induction false} BracesRead(selections: seq<Selection>, body: string, pos: nat, k: nat, rest: Stream)
    requires var text := After(PrintSelectionSet(selections));
             Here(body, pos, text, k) && Tokens(body, Past(pos, text, k)) == rest
    requires SelectionSetOk(selections) && AllPrintable(SelectionSetThen(selections, rest))
    ensures Tokens(body, pos) == SelectionSetThen(selections, rest)
    ensures Delimited(body, pos)
    decreases selections, 3
  {
    var at := SpacedReads(body, pos, PrintSelectionSet(selections), k);
    SelectionSetReads(selections, body, at, k, rest);
  }

  lemma {:induction false} SelectionSetReads(selections: seq<Selection>, body: string, pos: nat, k: nat, rest: Stream)
    requires Here(body, pos, PrintSelectionSet(selections), k)
             && Tokens(body, Past(pos, PrintSelectionSet(selections), k)) == rest
    requires SelectionSetOk(selections) && AllPrintable(SelectionSetThen(selections, rest))
    ensures Tokens(body, pos) == SelectionSetThen(selections, rest)
    decreases selections, 2
  {
    var inner := Join(PrintSelections(selections), "\n");
    var at := BlockReads(body, pos, inner, k);
    SelectionListReads(selections, body, at, k + 2, rest);
  }

  /** A block's lines stand inside its braces, two spaces further in. */
  lemma BlockReads(body: string, pos: nat, inner: string, k: nat) returns (at: nat)
    requires Here(body, pos, "{\n" + Join(Shifted(Lines(inner)), "\n") + "\n}", k)
    ensures Here(body, at, inner, k + 2) && Delimited(body, Past(at, inner, k + 2))
    ensures Tokens(body, pos) == Put(BraceL, Tokens(body, at))
    ensures Tokens(body, Past(at, inner, k + 2))
            == Put(BraceR, Tokens(body, Past(pos, "{\n" + Join(Shifted(Lines(inner)), "\n") + "\n}", k)))
  {
    var lines := Join(Shifted(Lines(inner)), "\n");
    Split(body, pos, "{\n" + lines, "\n}", k);
    Split(body, pos, "{\n", lines, k);
    MarkReads(body, pos, "{\n", k, BraceL);
    CloseReads(body, Past(pos, "{\n" + lines, k), k);
    at := LinesRead(body, Past(pos, "{\n", k), inner, k);
  }

  lemma LinesRead(body: string, pos: nat, inner: string, k: nat) returns (at: nat)
    requires Here(body, pos, Join(Shifted(Lines(inner)), "\n"), k)
    ensures Here(body, at, inner, k + 2) && Past(at, inner, k + 2) == Past(pos, Join(Shifted(Lines(inner)), "\n"), k)
    ensures Tokens(body, pos) == Tokens(body, at)
  {
    ShiftedLines(inner);
    Split(body, pos, "  ", Indented(inner, 2), k);
    IndentedTwice(inner, 2, k);
    GapReads(body, pos, "  ", k);
    at := Past(pos, "  ", k);
  }

  lemma CloseReads(body: string, pos: nat, k: nat)
    requires Here(body, pos, "\n}", k)
    ensures Delimited(body, pos) && Tokens(body, pos) == Put(BraceR, Tokens(body, Past(pos, "\n}", k)))
  {
    assert "\n}" == "\n" + "}";
    Split(body, pos, "\n", "}", k);
    MarkReads(body, Past(pos, "\n", k), "}", k, BraceR);
    GapReads(body, pos, "\n", k);
    StartsDelimited(body, pos, "\n}", k);
  }

  lemma {:induction false} SelectionListReads(selections: seq<Selection>, body: string, pos: nat, k: nat, rest: Stream)
    requires selections != [] && forall s <- selections :: SelectionOk(s)
    requires var text := Join(PrintSelections(selections), "\n");
             Here(body, pos, text, k) && Delimited(body, Past(pos, text, k))
                 && Tokens(body, Past(pos, text, k)) == Put(BraceR, rest)
    requires AllPrintable(MoreSelectionsThen(selections, rest))
    ensures Tokens(body, pos) == MoreSelectionsThen(selections, rest)
    decreases selections, 1
  {
    var first, more := PrintSelection(selections[0]), PrintSelections(selections[1..]);
    var next := MoreSelectionsThen(selections[1..], rest);
    JoinOne(first, more, "\n");
    if |selections| == 1 {
      assert selections[1..] == [];
      SelectionReads(selections[0], body, pos, k, Put(BraceR, rest));
    } else {
      var after := SeparatorReads(body, pos, first, "\n", Join(more, "\n"), k);
      PrintableAfterSelection(selections[0], next);
      SelectionListReads(selections[1..], body, after, k, rest);
      SelectionReads(selections[0], body, pos, k, next);
    }
  }

  // ----- definitions --------------------------------------------------------------------------------

  lemma DefaultReads(default: Option<Value>, body: string, pos: nat, k: nat, rest: Stream)
    requires var text := if default.Some? then " = " + PrintValue(default.value) else "";
             Here(body, pos, text, k) && Delimited(body, Past(pos, text, k)) && Tokens(body, Past(pos, text, k)) == rest
    requires AllPrintable(DefaultThen(default, rest))
    ensures Tokens(body, pos) == DefaultThen(default, rest)
    ensures Delimited(body, pos) && AllPrintable(rest)
  {
    if default.Some? {
      var at := EqualsReads(body, pos, PrintValue(default.value), k);
      PrintableAfterValue(default.value, rest);
      ValueReads(default.value, body, at, k, rest);
    }
  }

  lemma EqualsReads(body: string, pos: nat, value: string, k: nat) returns (at: nat)
    requires Here(body, pos, " = " + value, k)
    ensures Here(body, at, value, k) && Past(at, value, k) == Past(pos, " = " + value, k)
    ensures Tokens(body, pos) == Put(Equals, Tokens(body, at)) && Delimited(body, pos)
  {
    Split(body, pos, " = ", value, k);
    assert " = " == " " + "= ";
    Split(body, pos, " ", "= ", k);
    MarkReads(body, Past(pos, " ", k), "= ", k, Equals);
    GapReads(body, pos, " ", k);
    StartsDelimited(body, pos, " = ", k);
    at := Past(pos, " = ", k);
  }

  function DefaultText(v: VariableDefinition): string {
    if v.default.Some? then " = " + PrintValue(v.default.value) else ""
  }

  lemma PrintableInVariable(v: VariableDefinition, rest: Stream)
    requires AllPrintable(VariableDefinitionThen(v, rest))
    ensures var defaulted := DefaultThen(v.default, DirectivesThen(v.directives, rest));
            && Printable(Name(v.name)) && AllPrintable(TypeThen(v.varType, defaulted)) && AllPrintable(defaulted)
            && AllPrintable(DirectivesThen(v.directives, rest)) && AllPrintable(rest)
  {
    var more := DirectivesThen(v.directives, rest);
    var ts := VariableDefinitionThen(v, rest);
    assert AllPrintable(ts.rest) && AllPrintable(ts.rest.rest);
    PrintableAfterType(v.varType, DefaultThen(v.default, more));
    if v.default.Some? { PrintableAfterValue(v.default.value, more); }
    PrintableAfterDirectives(v.directives, rest);
  }

  lemma VariableReads(v: VariableDefinition, body: string, pos: nat, k: nat, rest: Stream)
    requires Here(body, pos, PrintVariable(v), k) && Delimited(body, Past(pos, PrintVariable(v), k))
    requires Tokens(body, Past(pos, PrintVariable(v), k)) == rest && AllPrintable(VariableDefinitionThen(v, rest))
    ensures Tokens(body, pos) == VariableDefinitionThen(v, rest)
  {
    PrintableInVariable(v, rest);
    var typed := "$" + v.name + ": " + PrintType(v.varType);
    TwoParts(typed + DefaultText(v), PrintDirectives(v.directives));
    Split(body, pos, typed + DefaultText(v), After(PrintDirectives(v.directives)), k);
    Split(body, pos, typed, DefaultText(v), k);
    var more := DirectivesThen(v.directives, rest);
    DirectivesRead(v.directives, body, Past(pos, typed + DefaultText(v), k), k, rest);
    DefaultReads(v.default, body, Past(pos, typed, k), k, more);
    TypedReads(v, body, pos, k, DefaultThen(v.default, more));
  }

  lemma TypedReads(v: VariableDefinition, body: string, pos: nat, k: nat, rest: Stream)
    requires var text := "$" + v.name + ": " + PrintType(v.varType);
             Here(body, pos, text, k) && Delimited(body, Past(pos, text, k)) && Tokens(body, Past(pos, text, k)) == rest
    requires Printable(Name(v.name)) && AllPrintable(TypeThen(v.varType, rest))
    ensures Tokens(body, pos) == Put(Dollar, Put(Name(v.name), Put(Colon, TypeThen(v.varType, rest))))
  {
    var name := "$" + v.name;
    Split(body, pos, name + ": ", PrintType(v.varType), k);
    Split(body, pos, name, ": ", k);
    var colon := Past(pos, name, k);
    TypeReads(v.varType, body, Past(colon, ": ", k), k, rest);
    MarkReads(body, colon, ": ", k, Colon);
    StartsDelimited(body, colon, ": ", k);
    PrefixedWordReads("$", v.name, body, pos, k, Dollar);
  }

  lemma {:induction false} PrintableAfterVariables(variables: seq<VariableDefinition>, rest: Stream)
    requires AllPrintable(MoreVariablesThen(variables, rest))
    ensures AllPrintable(rest)
  {
    if variables != [] {
      PrintableInVariable(variables[0], MoreVariablesThen(variables[1..], rest));
      PrintableAfterVariables(variables[1..], rest);
    }
  }

  lemma {:induction false} VariableListReads(variables: seq<VariableDefinition>, body: string, pos: nat, k: nat,
      rest: Stream)
    requires variables != []
    requires var text := Join(PrintVariableList(variables), ", ");
             Here(body, pos, text, k) && Delimited(body, Past(pos, text, k))
                 && Tokens(body, Past(pos, text, k)) == Put(ParenR, rest)
    requires AllPrintable(MoreVariablesThen(variables, rest))
    ensures Tokens(body, pos) == MoreVariablesThen(variables, rest)
  {
    var first, more := PrintVariable(variables[0]), PrintVariableList(variables[1..]);
    var next := MoreVariablesThen(variables[1..], rest);
    JoinOne(first, more, ", ");
    if |variables| == 1 {
      assert variables[1..] == [];
      VariableReads(variables[0], body, pos, k, Put(ParenR, rest));
    } else {
      var after := SeparatorReads(body, pos, first, ", ", Join(more, ", "), k);
      PrintableInVariable(variables[0], next);
      VariableListReads(variables[1..], body, after, k, rest);
      VariableReads(variables[0], body, pos, k, next);
    }
  }

  lemma VariablesText(variables: seq<VariableDefinition>)
    ensures variables != [] ==> PrintVariables(variables) == "(" + Join(PrintVariableList(variables), ", ") + ")"
    ensures PrintVariables(variables) != "" <==> variables != []
  {
    if variables != [] {
      var v := variables[0];
      TwoParts("$" + v.name + ": " + PrintType(v.varType) + DefaultText(v), PrintDirectives(v.directives));
      JoinedLength(PrintVariableList(variables), ", ");
    }
  }

  lemma VariablesRead(variables: seq<VariableDefinition>, body: string, pos: nat, k: nat, rest: Stream)
    requires Here(body, pos, PrintVariables(variables), k) && Delimited(body, Past(pos, PrintVariables(variables), k))
    requires Tokens(body, Past(pos, PrintVariables(variables), k)) == rest
             && AllPrintable(VariablesThen(variables, rest))
    ensures Tokens(body, pos) == VariablesThen(variables, rest)
    ensures Delimited(body, pos) && AllPrintable(rest)
  {
    if variables != [] {
      VariablesText(variables);
      var inner := Join(PrintVariableList(variables), ", ");
      var at := Enclosed(body, pos, "(", inner, ")", k, ParenL, ParenR);
      PrintableAfterVariables(variables, rest);
      VariableListReads(variables, body, at, k, rest);
      StartsDelimited(body, pos, "(" + inner + ")", k);
    }
  }

  function NameText(name: Option<string>): string { if name.Some? then name.value else "" }

  lemma JoinPair(a: string, b: string)
    ensures JoinNonEmpty([a, b], "") == a + b
  {
    NonEmptyFirst(a, [b]);
    NonEmptyFirst(b, []);
    assert [a, b] == [a] + [b] && [b] == [b] + [];
    JoinOne(a, [b], "");
    assert a + "" == a && "" + b == b;
  }

  function OperationHead(d: Definition): string
    requires d.Operation?
  {
    d.operation + After(NameText(d.name) + PrintVariables(d.variables))
  }

  lemma OperationText(d: Definition)
    requires d.Operation? && d.operation != "" && (d.name.Some? ==> d.name.value != "")
    ensures PrintDefinition(d)
            == if IsShorthand(d) then PrintSelectionSet(d.selections)
               else
                 OperationHead(d) + After(PrintDirectives(d.directives)) + After(PrintSelectionSet(d.selections))
  {
    VariablesText(d.variables);
    DirectivesText(d.directives);
    JoinPair(NameText(d.name), PrintVariables(d.variables));
    TwoParts(d.operation, NameText(d.name) + PrintVariables(d.variables));
    ThreeParts(OperationHead(d), PrintDirectives(d.directives), PrintSelectionSet(d.selections));
  }

  lemma PrintableInOperation(d: Definition, body: Stream)
    requires d.Operation?
    requires AllPrintable(Put(Name(d.operation),
               OptionalNameThen(d.name, VariablesThen(d.variables, DirectivesThen(d.directives, body)))))
    ensures AllPrintable(body) && AllPrintable(DirectivesThen(d.directives, body))
    ensures AllPrintable(VariablesThen(d.variables, DirectivesThen(d.directives, body)))
    ensures Printable(Name(d.operation)) && (d.name.Some? ==> Printable(Name(d.name.value)))
  {
    var more := DirectivesThen(d.directives, body);
    var ts := OptionalNameThen(d.name, VariablesThen(d.variables, more));
    assert AllPrintable(ts);
    if d.name.Some? { assert AllPrintable(ts.rest); }
    if d.variables != [] { PrintableAfterVariables(d.variables, more); }
    PrintableAfterDirectives(d.directives, body);
  }

  lemma OperationHeadReads(d: Definition, body: string, pos: nat, k: nat, rest: Stream)
    requires d.Operation? && Here(body, pos, OperationHead(d), k) && Delimited(body, Past(pos, OperationHead(d), k))
    requires Tokens(body, Past(pos, OperationHead(d), k)) == rest && AllPrintable(VariablesThen(d.variables, rest))
    requires Printable(Name(d.operation)) && (d.name.Some? ==> Printable(Name(d.name.value)))
    ensures Tokens(body, pos) == Put(Name(d.operation), OptionalNameThen(d.name, VariablesThen(d.variables, rest)))
  {
    var name, variables := NameText(d.name), PrintVariables(d.variables);
    Split(body, pos, d.operation, After(name + variables), k);
    var at := Past(pos, d.operation, k);
    NameAndVariablesRead(d, body, at, k, rest);
    WordReads(body, pos, d.operation, k, Name(d.operation));
  }

  lemma NameAndVariablesRead(d: Definition, body: string, pos: nat, k: nat, rest: Stream)
    requires d.Operation?
    requires var text := After(NameText(d.name) + PrintVariables(d.variables));
             Here(body, pos, text, k) && Delimited(body, Past(pos, text, k)) && Tokens(body, Past(pos, text, k)) == rest
    requires AllPrintable(VariablesThen(d.variables, rest)) && (d.name.Some? ==> Printable(Name(d.name.value)))
    ensures Tokens(body, pos) == OptionalNameThen(d.name, VariablesThen(d.variables, rest))
    ensures Delimited(body, pos)
  {
    var name, variables := NameText(d.name), PrintVariables(d.variables);
    VariablesText(d.variables);
    if name + variables != "" {
      var at := SpacedReads(body, pos, name + variables, k);
      Split(body, at, name, variables, k);
      VariablesRead(d.variables, body, Past(at, name, k), k, rest);
      if d.name.Some? { WordReads(body, at, name, k, Name(name)); }
    }
  }

  lemma OperationReads(d: Definition, body: string, pos: nat, k: nat, rest: Stream)
    requires d.Operation? && DefinitionOk(d) && !IsShorthand(d)
    requires Here(body, pos, PrintDefinition(d), k) && Tokens(body, Past(pos, PrintDefinition(d), k)) == rest
    requires AllPrintable(DefinitionThen(d, rest))
    ensures Tokens(body, pos) == DefinitionThen(d, rest)
  {
    var braces := SelectionSetThen(d.selections, rest);
    PrintableInOperation(d, braces);
    OperationText(d);
    var head, directives := OperationHead(d), After(PrintDirectives(d.directives));
    Split(body, pos, head + directives, After(PrintSelectionSet(d.selections)), k);
    Split(body, pos, head, directives, k);
    BracesRead(d.selections, body, Past(pos, head + directives, k), k, rest);
    DirectivesRead(d.directives, body, Past(pos, head, k), k, braces);
    OperationHeadReads(d, body, pos, k, DirectivesThen(d.directives, braces));
  }

  lemma PrintableInFragment(d: Definition, body: Stream)
    requires d.Fragment?
    requires AllPrintable(Put(Name("fragment"),
               Put(Name(d.fragmentName), Put(Name("on"), Put(Name(d.condition), DirectivesThen(d.directives, body))))))
    ensures Printable(Name("fragment")) && Printable(Name(d.fragmentName)) && Printable(Name("on"))
            && Printable(Name(d.condition))
    ensures AllPrintable(body) && AllPrintable(DirectivesThen(d.directives, body))
  {
    var on := Put(Name("on"), Put(Name(d.condition), DirectivesThen(d.directives, body)));
    assert AllPrintable(Put(Name(d.fragmentName), on)) && AllPrintable(on) && AllPrintable(on.rest);
    PrintableAfterDirectives(d.directives, body);
  }

  lemma FragmentReads(d: Definition, body: string, pos: nat, k: nat, rest: Stream)
    requires d.Fragment? && DefinitionOk(d)
    requires Here(body, pos, PrintDefinition(d), k) && Tokens(body, Past(pos, PrintDefinition(d), k)) == rest
    requires AllPrintable(DefinitionThen(d, rest))
    ensures Tokens(body, pos) == DefinitionThen(d, rest)
  {
    var braces := SelectionSetThen(d.selections, rest);
    PrintableInFragment(d, braces);
    var head, directives := "fragment " + d.fragmentName + " on " + d.condition, After(PrintDirectives(d.directives));
    ThreeParts(head, PrintDirectives(d.directives), PrintSelectionSet(d.selections));
    Split(body, pos, head + directives, After(PrintSelectionSet(d.selections)), k);
    Split(body, pos, head, directives, k);
    BracesRead(d.selections, body, Past(pos, head + directives, k), k, rest);
    DirectivesRead(d.directives, body, Past(pos, head, k), k, braces);
    FragmentHeadReads(d, body, pos, k, DirectivesThen(d.directives, braces));
  }

  lemma FragmentHeadReads(d: Definition, body: string, pos: nat, k: nat, rest: Stream)
    requires d.Fragment?
    requires Printable(Name("fragment")) && Printable(Name(d.fragmentName)) && Printable(Name("on"))
             && Printable(Name(d.condition))
    requires var text := "fragment " + d.fragmentName + " on " + d.condition;
             Here(body, pos, text, k) && Delimited(body, Past(pos, text, k)) && Tokens(body, Past(pos, text, k)) == rest
    ensures Tokens(body, pos) == Put(Name("fragment"),
              Put(Name(d.fragmentName), Put(Name("on"), Put(Name(d.condition), rest))))
  {
    FragmentWords(d);
    var fragment, name, condition := "fragment", d.fragmentName, d.condition;
    var at3 := SeparatorReads(body, pos, fragment + " " + name + " " + "on", " ", condition, k);
    var at2 := SeparatorReads(body, pos, fragment + " " + name, " ", "on", k);
    var at1 := SeparatorReads(body, pos, fragment, " ", name, k);
    WordReads(body, at3, condition, k, Name(condition));
    WordReads(body, at2, "on", k, Name("on"));
    WordReads(body, at1, name, k, Name(name));
    WordReads(body, pos, fragment, k, Name(fragment));
  }

  lemma FragmentWords(d: Definition)
    requires d.Fragment?
    ensures "fragment " + d.fragmentName + " on " + d.condition
            == "fragment" + " " + d.fragmentName + " " + "on" + " " + d.condition
  {
    assert "fragment " == "fragment" + " " && " on " == " " + "on" + " ";
  }

  lemma DefinitionReads(d: Definition, body: string, pos: nat, k: nat, rest: Stream)
    requires DefinitionOk(d) && Here(body, pos, PrintDefinition(d), k)
             && Tokens(body, Past(pos, PrintDefinition(d), k)) == rest
    requires AllPrintable(DefinitionThen(d, rest))
    ensures Tokens(body, pos) == DefinitionThen(d, rest)
  {
    if d.Fragment? {
      FragmentReads(d, body, pos, k, rest);
    } else if IsShorthand(d) {
      OperationText(d);
      SelectionSetReads(d.selections, body, pos, k, rest);
    } else {
      OperationReads(d, body, pos, k, rest);
    }
  }

  lemma PrintableAfterDefinition(d: Definition, rest: Stream)
    requires AllPrintable(DefinitionThen(d, rest))
    ensures AllPrintable(rest)
  {
    var braces := SelectionSetThen(d.selections, rest);
    if d.Fragment? { PrintableInFragment(d, braces); } else if !IsShorthand(d) { PrintableInOperation(d, braces); }
    PrintableAfterSelections(d.selections, rest);
  }

  lemma {:induction false} DefinitionListReads(definitions: seq<Definition>, body: string, pos: nat, rest: Stream)
    requires definitions != [] && forall d <- definitions :: DefinitionOk(d)
    requires var text := Join(PrintDefinitions(definitions), "\n\n");
             Here(body, pos, text, 0)
             && Tokens(body, Past(pos, text, 0)) == rest
    requires AllPrintable(DefinitionsThen(definitions, rest))
    ensures Tokens(body, pos) == DefinitionsThen(definitions, rest)
  {
    var first, more := PrintDefinition(definitions[0]), PrintDefinitions(definitions[1..]);
    var next := DefinitionsThen(definitions[1..], rest);
    JoinOne(first, more, "\n\n");
    if |definitions| == 1 {
      assert definitions[1..] == [];
      DefinitionReads(definitions[0], body, pos, 0, rest);
    } else {
      var after := SeparatorReads(body, pos, first, "\n\n", Join(more, "\n\n"), 0);
      PrintableAfterDefinition(definitions[0], next);
      DefinitionListReads(definitions[1..], body, after, rest);
      DefinitionReads(definitions[0], body, pos, 0, next);
    }
  }

  // ----- the round trip ----------------------------------------------------------------------------

  /** The names and numbers of the document are lexically right and no string is a block string. */
  predicate DocumentPrintable(d: Document) { AllPrintable(DefinitionsThen(d.definitions, Last(EndOfFile))) }

  /** The printed text lexes to exactly the document's tokens. */
  lemma PrintedTokens(d: Document)
    requires DocumentOk(d) && DocumentPrintable(d)
    ensures Tokens(PrintDocument(d), 0) == DefinitionsThen(d.definitions, Last(EndOfFile))
  {
    var text := Join(PrintDefinitions(d.definitions), "\n\n");
    var body := text + "\n";
    IndentedZero(body);
    StandsWhole(body, 0);
    assert body[0..] == body;
    Split(body, 0, text, "\n", 0);
    GapReads(body, Past(0, text, 0), "\n", 0);
    assert Tokens(body, |body|) == Last(EndOfFile);
    DefinitionListReads(d.definitions, body, 0, Last(EndOfFile));
  }

  /** Printing and parsing again gives the document back. */
  lemma ParsesBack(d: Document)
    requires DocumentOk(d) && DocumentPrintable(d)
    ensures Parse(PrintDocument(d)) == Some(d)
  {
    PrintedTokens(d);
    DocumentParses(d.definitions);
  }
}
