/** Printed text in place: indentation, separators and escapes are invisible to the token stream. */
module PrintedText {
  import opened Ast
  import opened Lexer
  import opened LexedText
  import opened Printer

  // ----- indentation ----------------------------------------------------------------------

  function Spaces(k: nat): string { if k == 0 then "" else " " + Spaces(k - 1) }

  function IndentedChar(c: char, k: nat): string { if c == '\n' then "\n" + Spaces(k) else [c] }

  /** The text with `k` spaces after each line break. */
  function Indented(text: string, k: nat): string {
    if text == "" then "" else IndentedChar(text[0], k) + Indented(text[1..], k)
  }

  lemma {:induction false} IndentedConcat(a: string, b: string, k: nat)
    ensures Indented(a + b, k) == Indented(a, k) + Indented(b, k)
  {
    if a == "" {
      assert a + b == b;
    } else {
      assert (a + b)[1..] == a[1..] + b;
      IndentedConcat(a[1..], b, k);
    }
  }

  lemma {:induction false} OneLine(text: string, k: nat)
    requires '\n' !in text
    ensures Indented(text, k) == text
  {
    if text != "" {
      assert text == [text[0]] + text[1..];
      OneLine(text[1..], k);
    }
  }

  lemma {:induction false} SpacesAdd(a: nat, b: nat)
    ensures Spaces(a) + Spaces(b) == Spaces(a + b) && '\n' !in Spaces(a)
  {
    if a > 0 { SpacesAdd(a - 1, b); }
  }

  lemma IndentedCharTwice(c: char, a: nat, b: nat)
    ensures Indented(IndentedChar(c, a), b) == IndentedChar(c, b + a)
  {
    if c == '\n' {
      SpacesAdd(a, b);
      SpacesAdd(b, a);
      OneLine(Spaces(a), b);
      assert ("\n" + Spaces(a))[1..] == Spaces(a);
      assert ("\n" + Spaces(b)) + Spaces(a) == "\n" + (Spaces(b) + Spaces(a));
    } else {
      OneLine([c], b);
    }
  }

  lemma {:induction false} IndentedTwice(text: string, a: nat, b: nat)
    ensures Indented(Indented(text, a), b) == Indented(text, b + a)
  {
    if text != "" {
      IndentedConcat(IndentedChar(text[0], a), Indented(text[1..], a), b);
      IndentedCharTwice(text[0], a, b);
      IndentedTwice(text[1..], a, b);
    }
  }

  lemma {:induction false} IndentedZero(text: string)
    ensures Indented(text, 0) == text
  {
    if text != "" {
      assert text == [text[0]] + text[1..];
      IndentedZero(text[1..]);
    }
  }

  lemma JoinOne(first: string, rest: seq<string>, sep: string)
    ensures Join([first] + rest, sep) == if rest == [] then first else first + sep + Join(rest, sep)
  {
    assert ([first] + rest)[1..] == rest;
  }

  /** Splitting into lines, shifting each and joining them again indents the text. */
  lemma {:induction false} ShiftedLines(text: string)
    ensures Join(Shifted(Lines(text)), "\n") == "  " + Indented(text, 2)
  {
    if text == "" {
      assert Shifted([""]) == ["  " + ""] + Shifted([]) && "  " + "" == "  ";
    } else {
      ShiftedLines(text[1..]);
      if text[0] == '\n' {
        BrokenLine(Lines(text[1..]), Indented(text[1..], 2));
      } else {
        LongerLine(text[0], Lines(text[1..]), Indented(text[1..], 2));
      }
    }
  }

  lemma TwoSpaces()
    ensures Spaces(2) == "  "
  {
    assert Spaces(1) == " " + Spaces(0);
  }

  lemma BrokenLine(lines: seq<string>, inner: string)
    requires lines != [] && Join(Shifted(lines), "\n") == "  " + inner
    ensures Join(Shifted([""] + lines), "\n") == "  " + (IndentedChar('\n', 2) + inner)
  {
    TwoSpaces();
    assert ([""] + lines)[1..] == lines;
    JoinOne("  " + "", Shifted(lines), "\n");
    Regroup("  ", "\n", inner);
  }

  lemma Regroup(a: string, b: string, c: string)
    ensures (a + "") + b + (a + c) == a + ((b + a) + c)
  {
  }

  lemma LongerLine(c: char, lines: seq<string>, inner: string)
    requires lines != [] && Join(Shifted(lines), "\n") == "  " + inner && c != '\n'
    ensures Join(Shifted([[c] + lines[0]] + lines[1..]), "\n") == "  " + (IndentedChar(c, 2) + inner)
  {
    var line, more := lines[0], Shifted(lines[1..]);
    assert ([[c] + line] + lines[1..])[1..] == lines[1..];
    JoinOne("  " + line, more, "\n");
    JoinOne("  " + ([c] + line), more, "\n");
    ShiftInside(c, line, if more == [] then "" else "\n" + Join(more, "\n"), inner, more);
  }

  lemma ShiftInside(c: char, line: string, after: string, inner: string, more: seq<string>)
    requires if more == [] then "  " + line == "  " + inner && after == ""
             else "  " + line + "\n" + Join(more, "\n") == "  " + inner
    requires more != [] ==> after == "\n" + Join(more, "\n")
    ensures ("  " + ([c] + line)) + after == "  " + ([c] + inner)
    ensures more == [] ==> "  " + ([c] + line) == "  " + ([c] + inner)
    ensures more != [] ==> "  " + ([c] + line) + "\n" + Join(more, "\n") == "  " + ([c] + inner)
  {
    assert ("  " + inner)[2..] == inner;
    assert inner == line + after by {
      if more == [] {
        assert ("  " + line)[2..] == line == line + "";
      } else {
        assert "  " + line + "\n" + Join(more, "\n") == "  " + (line + after);
        assert ("  " + (line + after))[2..] == line + after;
      }
    }
    assert "  " + ([c] + (line + after)) == ("  " + ([c] + line)) + after;
    if more != [] {
      assert ("  " + ([c] + line)) + ("\n" + Join(more, "\n")) == "  " + ([c] + line) + "\n" + Join(more, "\n");
    } else {
      assert ("  " + ([c] + line)) + "" == "  " + ([c] + line);
    }
  }

  // ----- a text standing in a source -----------------------------------------------------------

  /** The text stands at `pos`. */
  predicate Stands(body: string, pos: nat, text: string): (stands: bool)
    ensures stands ==> pos + |text| <= |body|
    decreases |text|
  {
    if text == "" then pos <= |body| else pos < |body| && body[pos] == text[0] && Stands(body, pos + 1, text[1..])
  }

  lemma {:induction false} StandsApart(body: string, pos: nat, a: string, b: string)
    requires Stands(body, pos, a + b)
    ensures Stands(body, pos, a) && Stands(body, pos + |a|, b)
    decreases |a|
  {
    if a == "" {
      assert a + b == b;
      StandsWithin(body, pos, b);
    } else {
      assert (a + b)[1..] == a[1..] + b;
      StandsApart(body, pos + 1, a[1..], b);
    }
  }

  lemma {:induction false} StandsWithin(body: string, pos: nat, text: string)
    requires Stands(body, pos, text)
    ensures pos + |text| <= |body| && forall i | 0 <= i < |text| :: text[i] == body[pos + i]
    decreases |text|
  {
    if text != "" {
      StandsWithin(body, pos + 1, text[1..]);
      forall i | 0 <= i < |text| ensures text[i] == body[pos + i] {
        if i > 0 { assert text[1..][i - 1] == body[pos + 1 + (i - 1)]; }
      }
    }
  }

  lemma {:induction false} StandsWhole(body: string, pos: nat)
    requires pos <= |body|
    ensures Stands(body, pos, body[pos..])
    decreases |body| - pos
  {
    if pos < |body| {
      assert body[pos..][1..] == body[pos + 1..];
      StandsWhole(body, pos + 1);
    }
  }

  /** Where an indented text that starts at `pos` ends. */
  function Past(pos: nat, text: string, k: nat): nat { pos + |Indented(text, k)| }

  /** The indented text stands at `pos`. */
  predicate Here(body: string, pos: nat, text: string, k: nat) { Stands(body, pos, Indented(text, k)) }

  lemma Split(body: string, pos: nat, a: string, b: string, k: nat)
    requires Here(body, pos, a + b, k)
    ensures Here(body, pos, a, k) && Here(body, Past(pos, a, k), b, k)
    ensures Past(pos, a + b, k) == Past(Past(pos, a, k), b, k)
  {
    IndentedConcat(a, b, k);
    var left, right := Indented(a, k), Indented(b, k);
    assert Indented(a + b, k) == left + right && |left + right| == |left| + |right|;
    StandsApart(body, pos, left, right);
  }

  lemma FirstChar(body: string, pos: nat, text: string, k: nat)
    requires Here(body, pos, text, k) && text != ""
    ensures pos < |body| && body[pos] == text[0]
  {
    assert Indented(text, k)[0] == text[0];
  }

  /** A character that ends any token before it. */
  predicate IsDelimiter(c: char) { !IsNameContinue(c) && c != '.' && c != '"' }

  predicate Delimited(body: string, pos: nat) { pos < |body| ==> IsDelimiter(body[pos]) }

  lemma StartsDelimited(body: string, pos: nat, text: string, k: nat)
    requires Here(body, pos, text, k) && text != "" && IsDelimiter(text[0])
    ensures Delimited(body, pos)
  {
    FirstChar(body, pos, text, k);
  }

  // ----- separators -------------------------------------------------------------------------------

  predicate AllBlank(text: string) { forall c <- text :: IsBlank(c) }

  lemma {:induction false} IndentedBlank(text: string, k: nat)
    requires AllBlank(text)
    ensures AllBlank(Indented(text, k))
    decreases text, k
  {
    if text != "" {
      SpacesBlank(k);
      assert IsBlank(text[0]);
      IndentedBlank(text[1..], k);
    }
  }

  lemma {:induction false} SpacesBlank(k: nat)
    ensures AllBlank(Spaces(k))
  {
    if k > 0 { SpacesBlank(k - 1); }
  }

  lemma {:induction false} BlankSpan(body: string, p: nat, q: nat)
    requires p <= q <= |body| && forall i | p <= i < q :: IsBlank(body[i])
    ensures Tokens(body, p) == Tokens(body, q)
    decreases q - p
  {
    if p < q {
      BlankSpan(body, p + 1, q);
      assert NextLexeme(body, p) == NextLexeme(body, p + 1);
    }
  }

  /** Blank text is no token. */
  lemma GapReads(body: string, pos: nat, text: string, k: nat)
    requires Here(body, pos, text, k) && AllBlank(text)
    ensures Tokens(body, pos) == Tokens(body, Past(pos, text, k))
  {
    IndentedBlank(text, k);
    StandsWithin(body, pos, Indented(text, k));
    var e := Past(pos, text, k);
    forall i | pos <= i < e ensures IsBlank(body[i]) {
      assert Indented(text, k)[i - pos] == body[pos + (i - pos)];
    }
    BlankSpan(body, pos, e);
  }

  /** A punctuator, perhaps with blanks behind it. */
  lemma MarkReads(body: string, pos: nat, text: string, k: nat, t: Token)
    requires Here(body, pos, text, k) && text != "" && Punctuator(text[0]) == Some(t) && AllBlank(text[1..])
    ensures Tokens(body, pos) == Put(t, Tokens(body, Past(pos, text, k)))
  {
    var c := text[0];
    assert text == [c] + text[1..];
    Split(body, pos, [c], text[1..], k);
    FirstChar(body, pos, text, k);
    OneLine([c], k);
    assert NextLexeme(body, pos) == Some(Lexeme(t, pos, pos + 1));
    GapReads(body, pos + 1, text[1..], k);
  }

  lemma SpreadReads(body: string, pos: nat, k: nat)
    requires Here(body, pos, "...", k)
    ensures Tokens(body, pos) == Put(Spread, Tokens(body, Past(pos, "...", k)))
  {
    OneLine("...", k);
    StandsWithin(body, pos, "...");
    assert "..."[0] == body[pos + 0] && "..."[1] == body[pos + 1] && "..."[2] == body[pos + 2];
    assert NextLexeme(body, pos) == Some(Lexeme(Spread, pos, pos + 3));
  }

  // ----- names and numbers ----------------------------------------------------------------------------

  /** The text alone lexes to the token. */
  predicate Spells(text: string, t: Token) { text != "" && LexemeAt(text, 0) == Some(Lexeme(t, 0, |text|)) }

  /** Tokens the printer writes the way the lexer reads them: names and numbers that are lexically right,
      and everything but block strings. */
  predicate Printable(t: Token) {
    match t
    case Name(value) => Spells(value, t)
    case Int(lexeme) => Spells(lexeme, t)
    case Float(lexeme) => Spells(lexeme, t)
    case BlockStr(_) => false
    case EndOfFile => false
    case Invalid => false
    case _ => true
  }

  predicate AllPrintable(ts: Stream) { ts.Put? ==> Printable(ts.head) && AllPrintable(ts.rest) }

  predicate IsWordChar(c: char) { IsNameContinue(c) || c == '.' || c == '-' || c == '+' }

  lemma SpelledChars(text: string, t: Token)
    requires Spells(text, t) && (t.Name? || t.Int? || t.Float?)
    ensures forall c <- text :: IsWordChar(c)
    ensures !IsBlank(text[0]) && text[0] != '#'
  {
    if t.Name? {
      forall c <- text ensures IsWordChar(c) {
        var i :| 0 <= i < |text| && text[i] == c;
        assert NameEnd(text, 1) == |text|;
      }
    } else {
      var ends := NumberEnds(text, 0).value;
      var sign := if text[0] == '-' then 1 else 0;
      forall i | 0 <= i < |text| ensures IsWordChar(text[i]) {
        if i >= ends.0 { FloatChars(text, ends.0, i); } else if i >= sign { IntegerChars(text, sign, i); }
      }
    }
  }

  lemma IntegerChars(s: string, pos: nat, i: nat)
    requires pos <= |s| && IntegerEnd(s, pos).Some? && pos <= i < IntegerEnd(s, pos).value
    ensures IsWordChar(s[i])
  {
  }

  lemma FloatChars(s: string, pos: nat, i: nat)
    requires pos <= |s| && FloatEnd(s, pos).Some? && pos <= i < FloatEnd(s, pos).value
    ensures IsWordChar(s[i])
  {
    var fraction := FractionEnd(s, pos).value;
    if i >= fraction {
      assert i == fraction || IsDigit(s[i]) || IsWordChar(s[fraction + 1]);
    }
  }

  lemma WordLexes(body: string, pos: nat, text: string, t: Token)
    requires Stands(body, pos, text) && Spells(text, t) && (t.Name? || t.Int? || t.Float?)
    requires Delimited(body, pos + |text|)
    ensures LexemeAt(body, pos) == Some(Lexeme(t, pos, pos + |text|))
  {
    StandsWithin(body, pos, text);
    LexemeLocal(text, 0, body, pos, |text|);
  }

  /** A name or number in place reads as one token when a delimiter follows. */
  lemma WordReads(body: string, pos: nat, text: string, k: nat, t: Token)
    requires Here(body, pos, text, k) && Spells(text, t) && (t.Name? || t.Int? || t.Float?)
    requires Delimited(body, Past(pos, text, k))
    ensures Tokens(body, pos) == Put(t, Tokens(body, Past(pos, text, k)))
  {
    SpelledChars(text, t);
    OneLine(text, k);
    WordLexes(body, pos, text, t);
    FirstChar(body, pos, text, k);
    LexemeFirst(body, pos, Lexeme(t, pos, Past(pos, text, k)));
  }

  lemma LexemeFirst(body: string, pos: nat, l: Lexeme)
    requires pos < |body| && IgnoredEnd(body, pos) == pos && LexemeAt(body, pos) == Some(l) && l.end <= |body|
    ensures Tokens(body, pos) == Put(l.token, Tokens(body, l.end))
  {
  }

  // ----- strings --------------------------------------------------------------------------------------------

  lemma {:induction false} EscapedOneLine(text: string)
    ensures '\n' !in Escaped(text)
  {
    if text != "" { EscapedOneLine(text[1..]); }
  }

  lemma CharReads(body: string, pos: nat, c: char)
    requires Stands(body, pos, EscapedChar(c))
    ensures StringRest(body, pos) == Onto([c], StringRest(body, pos + |EscapedChar(c)|))
  {
    var head := EscapedChar(c);
    assert body[pos] == head[0];
    if |head| == 2 {
      assert body[pos + 1] == head[1];
      assert EscapeAt(body, pos) == Some((c, pos + 2));
    }
  }

  lemma DecodesOn(text: string, r0: Option<(string, nat)>, r1: Option<(string, nat)>, r2: Option<(string, nat)>)
    requires text != "" && r0 == Onto([text[0]], r1) && r1 == Onto(text[1..], r2)
    ensures r0 == Onto(text, r2)
  {
    OntoMore([text[0]], text[1..], r2);
    assert [text[0]] + text[1..] == text;
  }

  /** The escaped text decodes to the text. */
  lemma {:induction false} EscapedReads(body: string, pos: nat, text: string)
    requires Stands(body, pos, Escaped(text))
    ensures StringRest(body, pos) == Onto(text, StringRest(body, pos + |Escaped(text)|))
    decreases |text|
  {
    if text == "" {
      OntoNothing(StringRest(body, pos));
    } else {
      var head, tail := EscapedChar(text[0]), Escaped(text[1..]);
      assert Escaped(text) == head + tail && |Escaped(text)| == |head| + |tail|;
      StandsApart(body, pos, head, tail);
      StandsWithin(body, pos, Escaped(text));
      var mid, end := pos + |head|, pos + |Escaped(text)|;
      CharReads(body, pos, text[0]);
      EscapedReads(body, mid, text[1..]);
      assert mid + |tail| == end;
      DecodesOn(text, StringRest(body, pos), StringRest(body, mid), StringRest(body, end));
    }
  }

  lemma QuotedReads(body: string, pos: nat, text: string)
    requires Holds(body, pos, '"') && Stands(body, pos + 1, Escaped(text))
             && Holds(body, pos + 1 + |Escaped(text)|, '"')
    requires Delimited(body, pos + |Escaped(text)| + 2)
    ensures LexemeAt(body, pos) == Some(Lexeme(Str(text), pos, pos + |Escaped(text)| + 2))
  {
    EscapedReads(body, pos + 1, text);
    assert text + "" == text;
    NoTriple(body, pos, text);
  }

  lemma NoTriple(body: string, pos: nat, text: string)
    requires Stands(body, pos + 1, Escaped(text)) && Delimited(body, pos + |Escaped(text)| + 2)
    ensures !TripleQuote(body, pos)
  {
    if text != "" {
      assert EscapedChar(text[0])[0] != '"';
      assert Escaped(text)[0] == EscapedChar(text[0])[0];
      assert Escaped(text)[0] == body[pos + 1 + 0];
    }
  }

  lemma HereStands(body: string, pos: nat, text: string, k: nat)
    requires Here(body, pos, text, k) && '\n' !in text
    ensures Stands(body, pos, text) && Past(pos, text, k) == pos + |text|
  {
    OneLine(text, k);
  }

  /** A printed string reads as the text it was printed from. */
  lemma StringReads(body: string, pos: nat, text: string, k: nat)
    requires Here(body, pos, "\"" + Escaped(text) + "\"", k)
             && Delimited(body, Past(pos, "\"" + Escaped(text) + "\"", k))
    ensures Tokens(body, pos) == Put(Str(text), Tokens(body, Past(pos, "\"" + Escaped(text) + "\"", k)))
  {
    var inner := Escaped(text);
    EscapedOneLine(text);
    HereStands(body, pos, "\"" + inner + "\"", k);
    StandsApart(body, pos, "\"" + inner, "\"");
    StandsApart(body, pos, "\"", inner);
    assert body[pos + 0] == "\""[0] && body[pos + 1 + |inner| + 0] == "\""[0];
    QuotedReads(body, pos, text);
    assert IgnoredEnd(body, pos) == pos;
  }
}
