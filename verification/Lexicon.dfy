/** How each token is written, told from characters alone, and that the lexer reads exactly that: names,
    numbers, strings with their escapes, block strings and punctuators. */
module Lexicon {
  import opened Ast
  import opened Lexer
  import opened LexedText

  // ----- punctuators and names ------------------------------------------------------------------

  /** How a punctuator is written. */
  function Mark(t: Token): string {
    match t
    case Bang => "!"
    case Dollar => "$"
    case Amp => "&"
    case ParenL => "("
    case ParenR => ")"
    case Spread => "..."
    case Colon => ":"
    case Equals => "="
    case At => "@"
    case BracketL => "["
    case BracketR => "]"
    case BraceL => "{"
    case BraceR => "}"
    case Pipe => "|"
    case _ => ""
  }

  predicate Letter(c: char) { c == '_' || 'a' <= c <= 'z' || 'A' <= c <= 'Z' }

  predicate Digit(c: char) { '0' <= c <= '9' }

  predicate NameText(s: string) { s != "" && Letter(s[0]) && forall c <- s :: Letter(c) || Digit(c) }

  // ----- numbers -----------------------------------------------------------------------------------

  /** One or more digits between two positions. */
  predicate DigitsIn(s: string, from: nat, to: nat) {
    from < to <= |s| && forall i | from <= i < to :: Digit(s[i])
  }

  /** An optional minus sign and digits without a leading zero. */
  predicate WholeTo(s: string, to: nat) {
    var from := if s != "" && s[0] == '-' then 1 else 0;
    DigitsIn(s, from, to) && (s[from] == '0' ==> to == from + 1)
  }

  /** Nothing, or a dot and digits. */
  predicate FractionIn(s: string, from: nat, to: nat) {
    from == to || (from < |s| && s[from] == '.' && DigitsIn(s, from + 1, to))
  }

  /** Nothing, or `e`, an optional sign, and digits. */
  predicate ExponentIn(s: string, from: nat, to: nat) {
    from == to
    || (from < |s| && (s[from] == 'e' || s[from] == 'E')
        && (DigitsIn(s, from + 1, to)
            || (from + 1 < |s| && (s[from + 1] == '+' || s[from + 1] == '-') && DigitsIn(s, from + 2, to))))
  }

  predicate FloatParts(s: string, whole: nat, fraction: nat) {
    && whole <= fraction <= |s| && whole < |s|
    && WholeTo(s, whole) && FractionIn(s, whole, fraction) && ExponentIn(s, fraction, |s|)
  }

  ghost predicate FloatText(s: string) { exists whole: nat, fraction: nat :: FloatParts(s, whole, fraction) }

  // ----- strings -------------------------------------------------------------------------------------

  const ESCAPES := "\"\\/bfnrt"

  const MEANINGS := "\"\\/\U{0008}\U{000C}\n\r\t"

  const LOWER := "0123456789abcdef"

  const UPPER := "0123456789ABCDEF"

  /** A hexadecimal digit of value `v`. */
  predicate HexDigit(c: char, v: nat) { v < 16 && (LOWER[v] == c || UPPER[v] == c) }

  predicate FourDigits(s: string, a: nat, b: nat, c: nat, d: nat) {
    |s| == 4 && HexDigit(s[0], a) && HexDigit(s[1], b) && HexDigit(s[2], c) && HexDigit(s[3], d)
  }

  /** Four hexadecimal digits, the highest first. */
  ghost predicate SpellsCode(s: string, code: nat) {
    exists a: nat, b: nat, c: nat, d: nat ::
      FourDigits(s, a, b, c, d) && code == ((a * 16 + b) * 16 + c) * 16 + d
  }

  /** The character a code stands for; lone surrogates are read as U+FFFD. */
  predicate CodeIs(code: nat, c: char) {
    if 0xD800 <= code <= 0xDFFF then c as int == 0xFFFD else c as int == code
  }

  ghost predicate UnicodeIs(s: string, c: char) { exists code: nat :: SpellsCode(s, code) && CodeIs(code, c) }

  predicate SimpleIs(e: char, c: char) { exists k | 0 <= k < 8 :: ESCAPES[k] == e && MEANINGS[k] == c }

  /** Between `pos` and `next` stands one character of a string's text: itself, or an escape of it. */
  ghost predicate OneCharacter(body: string, pos: nat, next: nat, c: char) {
    && pos < next <= |body|
    && if body[pos] != '\\' then next == pos + 1 && c == body[pos] && c != '"' && c !in LINE_ENDS
       else
         || (next == pos + 2 && SimpleIs(body[pos + 1], c))
         || (next == pos + 6 && body[pos + 1] == 'u' && UnicodeIs(body[pos + 2..next], c))
  }

  /** Between `pos` and `end` stands the text of a string. */
  ghost predicate TextIn(body: string, pos: nat, end: nat, text: string)
    decreases |text|
  {
    if text == "" then pos == end
    else exists next :: OneCharacter(body, pos, next, text[0]) && TextIn(body, next, end, text[1..])
  }

  const QUOTES := "\"\"\""

  predicate QuotesAt(body: string, pos: nat) { pos + 3 <= |body| && body[pos..pos + 3] == QUOTES }

  /** Between `pos` and `end` stands the raw text of a block string: three quotes only behind a backslash. */
  ghost predicate RawIn(body: string, pos: nat, end: nat, raw: string)
    decreases |raw|
  {
    if raw == "" then pos == end
    else
      && pos < end <= |body|
      && if body[pos] == '\\' && QuotesAt(body, pos + 1) then QUOTES <= raw && RawIn(body, pos + 4, end, raw[3..])
         else !QuotesAt(body, pos) && raw[0] == body[pos] && RawIn(body, pos + 1, end, raw[1..])
  }

  // ----- every token ---------------------------------------------------------------------------------

  /** The text `s` is the token `t`. */
  ghost predicate Spells(s: string, t: Token) {
    match t
    case EndOfFile => false
    case Invalid => false
    case Name(value) => value == s && NameText(s)
    case Int(lexeme) => lexeme == s && WholeTo(s, |s|)
    case Float(lexeme) => lexeme == s && FloatText(s)
    case Str(text) => |s| >= 2 && s[0] == '"' && s[|s| - 1] == '"' && TextIn(s, 1, |s| - 1, text)
    case BlockStr(raw) => |s| >= 6 && QuotesAt(s, 0) && QuotesAt(s, |s| - 3) && RawIn(s, 3, |s| - 3, raw)
    case _ => s == Mark(t)
  }

  // ----- numbers are read as written -------------------------------------------------------------------

  lemma SomeDigitsExactly(s: string, from: nat, to: nat)
    requires from <= |s| && (to < |s| ==> !Digit(s[to]))
    ensures SomeDigitsEnd(s, from) == Some(to) <==> DigitsIn(s, from, to)
  {
  }

  lemma WholeExactly(s: string, to: nat)
    requires s != "" && (to < |s| ==> !Digit(s[to]))
    ensures IntegerEnd(s, if s[0] == '-' then 1 else 0) == Some(to) <==> WholeTo(s, to)
  {
    var from := if s[0] == '-' then 1 else 0;
    SomeDigitsExactly(s, from, to);
  }

  lemma FractionExactly(s: string, from: nat, to: nat)
    requires from <= to <= |s| && (to < |s| ==> !Digit(s[to]))
    requires from == to < |s| ==> s[from] != '.'
    ensures FractionEnd(s, from) == Some(to) <==> FractionIn(s, from, to)
  {
    if from < |s| { SomeDigitsExactly(s, from + 1, to); }
  }

  lemma ExponentExactly(s: string, from: nat)
    requires from <= |s|
    ensures ExponentEnd(s, from) == Some(|s|) <==> ExponentIn(s, from, |s|)
  {
    if from < |s| && (s[from] == 'e' || s[from] == 'E') {
      SomeDigitsExactly(s, from + 1, |s|);
      if from + 1 < |s| { SomeDigitsExactly(s, from + 2, |s|); }
    }
  }

  lemma FloatExactly(s: string, whole: nat, fraction: nat)
    requires s != "" && FloatParts(s, whole, fraction)
    ensures NumberAt(s, 0) == Some(Lexeme(Float(s), 0, |s|))
  {
    var sign := if s[0] == '-' then 1 else 0;
    assert !Digit(s[whole]);
    assert fraction < |s| ==> !Digit(s[fraction]);
    WholeExactly(s, whole);
    FractionExactly(s, whole, fraction);
    ExponentExactly(s, fraction);
    assert s[0..|s|] == s;
    assert IntegerEnd(s, sign) == Some(whole) && FloatEnd(s, whole) == Some(|s|);
  }

  /** A number is read whole exactly when it is written as one. */
  lemma NumberExactly(s: string, t: Token)
    requires s != "" && (t.Int? || t.Float?)
    ensures NumberAt(s, 0) == Some(Lexeme(t, 0, |s|)) <==> Spells(s, t)
  {
    assert s[0..|s|] == s;
    WholeExactly(s, |s|);
    if NumberAt(s, 0) == Some(Lexeme(t, 0, |s|)) {
      var whole := NumberEnds(s, 0).value.0;
      var fraction := FractionEnd(s, whole).value;
      WholeExactly(s, whole);
      FractionExactly(s, whole, fraction);
      ExponentExactly(s, fraction);
      if t.Float? { assert FloatParts(s, whole, fraction); }
    }
    if t.Float? && FloatText(s) && t.lexeme == s {
      var whole: nat, fraction: nat :| FloatParts(s, whole, fraction);
      FloatExactly(s, whole, fraction);
    }
    if t.Int? && Spells(s, t) {
      assert FloatEnd(s, |s|) == Some(|s|);
    }
  }

  // ----- strings are read as written ---------------------------------------------------------------------

  lemma HexDigitExactly(c: char)
    ensures IsHex(c) <==> exists v: nat :: HexDigit(c, v)
    ensures IsHex(c) ==> forall v: nat :: HexDigit(c, v) <==> v == HexValue(c)
  {
    if IsHex(c) { assert HexDigit(c, HexValue(c)); }
  }

  /** Four digits spell a code exactly when it is their number. */
  lemma CodeExactly(s: string, code: nat)
    requires |s| == 4
    ensures SpellsCode(s, code) <==> (forall c <- s :: IsHex(c)) && code == HexNumber(s)
  {
    HexDigitExactly(s[0]);
    HexDigitExactly(s[1]);
    HexDigitExactly(s[2]);
    HexDigitExactly(s[3]);
    if forall c <- s :: IsHex(c) {
      assert s[0] in s && s[1] in s && s[2] in s && s[3] in s;
      assert FourDigits(s, HexValue(s[0]), HexValue(s[1]), HexValue(s[2]), HexValue(s[3]));
    }
  }

  lemma UnicodeExactly(s: string, c: char)
    requires |s| == 4
    ensures UnicodeIs(s, c) <==> (forall x <- s :: IsHex(x)) && c == CodeChar(HexNumber(s))
  {
    if code: nat :| SpellsCode(s, code) && CodeIs(code, c) { CodeExactly(s, code); }
    if forall x <- s :: IsHex(x) { CodeExactly(s, HexNumber(s)); }
  }

  lemma SimpleExactly(e: char, c: char)
    ensures SimpleIs(e, c) <==> SimpleEscape(e) == Some(c)
  {
    assert ESCAPES == ['"', '\\', '/', 'b', 'f', 'n', 'r', 't'];
    assert MEANINGS == ['"', '\\', '/', '\U{0008}', '\U{000C}', '\n', '\r', '\t'];
    if k :| 0 <= k < 8 && ESCAPES[k] == e && MEANINGS[k] == c {}
    if SimpleEscape(e) == Some(c) {
      var k := if e == '"' then 0 else if e == '\\' then 1 else if e == '/' then 2 else if e == 'b' then 3
        else if e == 'f' then 4 else if e == 'n' then 5 else if e == 'r' then 6 else 7;
      assert ESCAPES[k] == e && MEANINGS[k] == c;
    }
  }

  /** An escape is read exactly as it is written. */
  lemma EscapeExactly(body: string, pos: nat, next: nat, c: char)
    requires pos < |body| && body[pos] == '\\'
    ensures EscapeAt(body, pos) == Some((c, next)) <==> OneCharacter(body, pos, next, c)
  {
    if pos + 1 < |body| {
      SimpleExactly(body[pos + 1], c);
      assert !SimpleIs('u', c) by { SimpleExactly('u', c); }
      if pos + 6 <= |body| { UnicodeExactly(body[pos + 2..pos + 6], c); }
    }
  }

  lemma CharacterExactly(body: string, pos: nat, next: nat, c: char)
    requires pos < |body| && body[pos] != '\\'
    ensures OneCharacter(body, pos, next, c)
            <==> next == pos + 1 && c == body[pos] && c != '"' && !EndsLine(c)
  {
    LineEnds(body[pos]);
  }

  /** A string's text is read up to the closing quote exactly as it is written. */
  lemma {:induction false} TextExactly(body: string, pos: nat, text: string, end: nat)
    requires pos <= |body|
    ensures StringRest(body, pos) == Some((text, end))
            <==> 0 < end <= |body| && body[end - 1] == '"' && TextIn(body, pos, end - 1, text)
    decreases |text|
  {
    if pos < |body| && text != "" {
      var c := text[0];
      assert [c] + text[1..] == text;
      if body[pos] == '\\' {
        EscapedExactly(body, pos, text, end);
      } else {
        forall next: nat
          ensures OneCharacter(body, pos, next, c)
                  <==> next == pos + 1 && c == body[pos] && c != '"' && !EndsLine(c)
        {
          CharacterExactly(body, pos, next, c);
        }
        TextExactly(body, pos + 1, text[1..], end);
      }
    }
  }

  lemma EscapedExactly(body: string, pos: nat, text: string, end: nat)
    requires pos < |body| && text != "" && body[pos] == '\\'
    ensures StringRest(body, pos) == Some((text, end))
            <==> 0 < end <= |body| && body[end - 1] == '"' && TextIn(body, pos, end - 1, text)
    decreases |text|, 0
  {
    var c := text[0];
    assert [c] + text[1..] == text;
    forall next: nat ensures EscapeAt(body, pos) == Some((c, next)) <==> OneCharacter(body, pos, next, c) {
      EscapeExactly(body, pos, next, c);
    }
    if EscapeAt(body, pos).Some? { TextExactly(body, EscapeAt(body, pos).value.1, text[1..], end); }
  }

  lemma QuotesExactly(body: string, pos: nat)
    ensures QuotesAt(body, pos) <==> TripleQuote(body, pos)
  {
    if pos + 3 <= |body| {
      assert body[pos..pos + 3] == [body[pos], body[pos + 1], body[pos + 2]];
      assert QUOTES == ['"', '"', '"'];
    }
  }

  /** A block string's raw text is read up to the closing quotes exactly as it is written. */
  lemma {:induction false} RawExactly(body: string, pos: nat, raw: string, end: nat)
    requires pos <= |body|
    ensures BlockRest(body, pos) == Some((raw, end))
            <==> 3 <= end <= |body| && QuotesAt(body, end - 3) && RawIn(body, pos, end - 3, raw)
    decreases |body| - pos
  {
    if pos < |body| {
      QuotesExactly(body, pos);
      QuotesExactly(body, pos + 1);
      if raw != "" && !TripleQuote(body, pos) {
        if body[pos] == '\\' && TripleQuote(body, pos + 1) {
          if QUOTES <= raw {
            assert QUOTES + raw[3..] == raw;
            RawExactly(body, pos + 4, raw[3..], end);
          }
        } else {
          assert [raw[0]] + raw[1..] == raw;
          RawExactly(body, pos + 1, raw[1..], end);
        }
      }
    }
  }

  // ----- every token is read as written --------------------------------------------------------------------

  lemma LetterStarts(c: char)
    ensures Letter(c) <==> IsNameStart(c)
    ensures Letter(c) || Digit(c) <==> IsNameContinue(c)
    ensures Letter(c) ==> c != '.' && Punctuator(c).None? && c != '-' && !IsDigit(c) && c != '"'
  {
  }

  lemma NameExactly(s: string, value: string)
    requires s != ""
    ensures LexemeAt(s, 0) == Some(Lexeme(Name(value), 0, |s|)) <==> Spells(s, Name(value))
  {
    forall c: char ensures (Letter(c) <==> IsNameStart(c)) && (Letter(c) || Digit(c) <==> IsNameContinue(c)) {
      LetterStarts(c);
    }
    LetterStarts(s[0]);
    assert s[0..|s|] == s;
    if LexemeAt(s, 0) == Some(Lexeme(Name(value), 0, |s|)) {
      assert IsNameStart(s[0]);
      forall c <- s ensures Letter(c) || Digit(c) {
        var i :| 0 <= i < |s| && s[i] == c;
      }
    }
    if NameText(s) {
      assert forall i | 0 <= i < |s| :: s[i] in s;
      assert NameEnd(s, 1) == |s|;
    }
  }

  lemma PunctuatorExactly(s: string, t: Token)
    requires s != "" && Mark(t) != ""
    ensures LexemeAt(s, 0) == Some(Lexeme(t, 0, |s|)) <==> s == Mark(t)
  {
    if t.Spread? {
      assert Mark(t) == ['.', '.', '.'];
    } else {
      assert Mark(t) == [Mark(t)[0]];
    }
  }

  lemma StringExactly(s: string, text: string)
    requires s != "" && s[0] == '"' && !TripleQuote(s, 0)
    ensures LexemeAt(s, 0) == Some(Lexeme(Str(text), 0, |s|)) <==> Spells(s, Str(text))
  {
    TextExactly(s, 1, text, |s|);
    assert LexemeAt(s, 0) == StringAt(s, 0);
  }

  lemma BlockExactly(s: string, raw: string)
    requires TripleQuote(s, 0)
    ensures LexemeAt(s, 0) == Some(Lexeme(BlockStr(raw), 0, |s|)) <==> Spells(s, BlockStr(raw))
  {
    QuotesExactly(s, 0);
    RawExactly(s, 3, raw, |s|);
    assert LexemeAt(s, 0) == BlockAt(s, 0);
    if BlockRest(s, 3).Some? { LexedText.BlockLeaves(s, 3); }
  }

  /** A text that starts with three quotes is no string, since a quote in a string stands behind a backslash. */
  lemma TripleIsNoString(s: string, text: string)
    requires TripleQuote(s, 0)
    ensures !Spells(s, Str(text))
  {
    assert s[1] == '"';
    if text != "" {
      forall next: nat ensures !OneCharacter(s, 1, next, text[0]) {}
    }
  }

  /** A text is read as one token exactly when it is written as that token. */
  lemma TokenExactly(s: string, t: Token)
    requires s != ""
    ensures LexemeAt(s, 0) == Some(Lexeme(t, 0, |s|)) <==> Spells(s, t)
  {
    match t
    case EndOfFile =>
    case Invalid =>
    case Name(value) => NameExactly(s, value);
    case Int(_) => NumberTokenExactly(s, t);
    case Float(_) => NumberTokenExactly(s, t);
    case Str(text) =>
      if TripleQuote(s, 0) {
        TripleIsNoString(s, text);
      } else if s[0] == '"' {
        StringExactly(s, text);
      }
    case BlockStr(raw) =>
      if TripleQuote(s, 0) {
        BlockExactly(s, raw);
      } else {
        QuotesExactly(s, 0);
      }
    case _ => PunctuatorExactly(s, t);
  }

  predicate StartsNumber(s: string) { s != "" && (s[0] == '-' || IsDigit(s[0])) }

  lemma NumbersStart(s: string)
    requires s != ""
    ensures StartsNumber(s) ==> LexemeAt(s, 0) == NumberAt(s, 0)
    ensures !StartsNumber(s) && LexemeAt(s, 0).Some? ==>
              !LexemeAt(s, 0).value.token.Int? && !LexemeAt(s, 0).value.token.Float?
  {
    if StartsNumber(s) { assert s[0] != '.' && Punctuator(s[0]).None? && !IsNameStart(s[0]); }
  }

  lemma WrittenNumberStarts(s: string, t: Token)
    requires s != "" && (t.Int? || t.Float?) && Spells(s, t)
    ensures StartsNumber(s)
  {
    if t.Float? { var whole: nat, fraction: nat :| FloatParts(s, whole, fraction); }
  }

  lemma NumberTokenExactly(s: string, t: Token)
    requires s != "" && (t.Int? || t.Float?)
    ensures LexemeAt(s, 0) == Some(Lexeme(t, 0, |s|)) <==> Spells(s, t)
  {
    NumberExactly(s, t);
    NumbersStart(s);
    if Spells(s, t) { WrittenNumberStarts(s, t); }
  }

  /** What the lexer reads anywhere in a text is the token that the characters read are written as. */
  lemma ReadsAsWritten(body: string, pos: nat, l: Lexeme)
    requires pos < |body| && LexemeAt(body, pos) == Some(l)
    ensures Spells(body[pos..l.end], l.token)
  {
    var own := body[pos..l.end];
    LexemeLocal(body, pos, own, 0, |own|);
    TokenExactly(own, l.token);
  }

  /** A token written in a text is read there, as long as what follows cannot prolong it. */
  lemma WrittenIsRead(body: string, pos: nat, end: nat, t: Token)
    requires pos < end <= |body| && Spells(body[pos..end], t) && EndsAt(t, body, end)
    ensures LexemeAt(body, pos) == Some(Lexeme(t, pos, end))
  {
    var own := body[pos..end];
    TokenExactly(own, t);
    LexemeLocal(own, 0, body, pos, |own|);
  }
}
