/** What lexing keeps of a text: lexemes cover it in order with only ignored characters in between, and
    each lexeme depends on its own characters alone. */
module LexedText {
  import opened Ast
  import opened Lexer

  // ----- only ignored characters are passed over ----------------------------------------------

  /** White space, line ends, commas and byte-order marks. */
  const BLANKS := " \t\r\n,\U{FEFF}"

  const LINE_ENDS := "\r\n"

  ghost predicate InComment(body: string, from: nat, i: nat)
    requires from <= i < |body|
  {
    exists h | from <= h <= i :: body[h] == '#' && forall m | h <= m <= i :: body[m] !in LINE_ENDS
  }

  /** Blank, or in a comment that begins at or after `from`. */
  ghost predicate Ignored(body: string, from: nat, i: nat)
    requires from <= i < |body|
  {
    body[i] in BLANKS || InComment(body, from, i)
  }

  /** Every character of the span is blank or stands in a comment that begins in the span. */
  ghost predicate Ignorable(body: string, from: nat, to: nat)
    requires from <= to <= |body|
  {
    forall i | from <= i < to :: Ignored(body, from, i)
  }

  lemma LineEnds(c: char)
    ensures EndsLine(c) <==> c in LINE_ENDS
    ensures IsBlank(c) <==> c in BLANKS
    ensures c in LINE_ENDS ==> c in BLANKS && '#' !in BLANKS
  {
    assert LINE_ENDS == ['\r', '\n'] && BLANKS == [' ', '\t', '\r', '\n', ',', '\U{FEFF}'];
  }

  /** Going past a blank or a comment does not change what is ignored later. */
  lemma IgnoredLater(body: string, pos: nat, next: nat, i: nat)
    requires pos < next <= i < |body|
    requires (next == pos + 1 && body[pos] != '#') || body[next] in LINE_ENDS
    ensures Ignored(body, pos, i) <==> Ignored(body, next, i)
  {
    if InComment(body, pos, i) && body[i] !in BLANKS {
      var h :| pos <= h <= i && body[h] == '#' && forall m | h <= m <= i :: body[m] !in LINE_ENDS;
      assert h >= next;
      assert InComment(body, next, i);
    }
  }

  /** Exactly what is blank or in a comment is passed over: all of it, and nothing else. */
  lemma {:induction false} IgnoresExactly(body: string, pos: nat)
    requires pos <= |body|
    ensures Ignorable(body, pos, IgnoredEnd(body, pos))
    ensures IgnoredEnd(body, pos) < |body| ==> !Ignored(body, pos, IgnoredEnd(body, pos))
    decreases |body| - pos
  {
    var end := IgnoredEnd(body, pos);
    forall c: char ensures (EndsLine(c) <==> c in LINE_ENDS) && (IsBlank(c) <==> c in BLANKS) { LineEnds(c); }
    if pos < |body| && (IsBlank(body[pos]) || body[pos] == '#') {
      LineEnds(body[pos]);
      var next := if IsBlank(body[pos]) then pos + 1 else CommentEnd(body, pos + 1);
      IgnoresExactly(body, next);
      forall i | next <= i < |body| ensures Ignored(body, pos, i) <==> Ignored(body, next, i) {
        IgnoredLater(body, pos, next, i);
      }
      forall i | pos <= i < next ensures Ignored(body, pos, i) {
        if body[pos] == '#' { assert forall m | pos <= m <= i :: body[m] !in LINE_ENDS; }
      }
    } else if pos < |body| {
      LineEnds(body[pos]);
    }
  }

  // ----- a lexeme depends on its own characters -------------------------------------------------

  /** The texts agree on the `n` characters from `p` and from `q`. */
  ghost predicate Agree(a: string, p: nat, b: string, q: nat, n: nat) {
    p + n <= |a| && q + n <= |b| && forall i | p <= i < p + n :: a[i] == b[i - p + q]
  }

  /** A character that cannot prolong the token. */
  predicate Ends(token: Token, c: char) {
    match token
    case Name(_) => !IsNameContinue(c)
    case Int(_) => !IsDigit(c) && c != '.' && c != 'e' && c != 'E'
    case Float(_) => !IsDigit(c) && c != '.' && c != 'e' && c != 'E'
    case Str(_) => c != '"'
    case _ => true
  }

  predicate EndsAt(token: Token, body: string, pos: nat) { pos < |body| ==> Ends(token, body[pos]) }

  lemma {:induction false} NameLocal(a: string, p: nat, b: string, q: nat, n: nat)
    requires Agree(a, p, b, q, n) && NameEnd(a, p) == p + n && (q + n < |b| ==> !IsNameContinue(b[q + n]))
    ensures NameEnd(b, q) == q + n
    decreases n
  {
    if n > 0 {
      Shorter(a, p, b, q, n, 1);
      NameLocal(a, p + 1, b, q + 1, n - 1);
    }
  }

  lemma Shorter(a: string, p: nat, b: string, q: nat, n: nat, k: nat)
    requires Agree(a, p, b, q, n) && k <= n
    ensures Agree(a, p + k, b, q + k, n - k)
  {
  }

  lemma {:induction false} DigitsLocal(a: string, p: nat, b: string, q: nat, n: nat)
    requires Agree(a, p, b, q, n) && DigitsEnd(a, p) == p + n && (q + n < |b| ==> !IsDigit(b[q + n]))
    ensures DigitsEnd(b, q) == q + n
    decreases n
  {
    if n > 0 {
      Shorter(a, p, b, q, n, 1);
      DigitsLocal(a, p + 1, b, q + 1, n - 1);
    }
  }

  predicate EndsNumber(b: string, q: nat) { q < |b| ==> !IsDigit(b[q]) && b[q] != '.' && b[q] != 'e' && b[q] != 'E' }

  /** Characters correspond at offset `k` of the agreeing spans. */
  lemma Same(a: string, p: nat, b: string, q: nat, n: nat, k: nat)
    requires Agree(a, p, b, q, n) && k < n
    ensures a[p + k] == b[q + k]
  {
  }

  lemma SameText(a: string, p: nat, b: string, q: nat, n: nat, k: nat)
    requires Agree(a, p, b, q, n) && k <= n
    ensures a[p..p + k] == b[q..q + k]
  {
  }

  /** Digits that end inside the agreeing spans, or exactly with them. */
  lemma SomeDigitsLocal(a: string, p: nat, b: string, q: nat, n: nat, i: nat)
    requires Agree(a, p, b, q, n) && EndsNumber(b, q + n) && i <= n
    requires var end := SomeDigitsEnd(a, p + i); end.Some? && end.value <= p + n
    ensures SomeDigitsEnd(b, q + i) == Some(SomeDigitsEnd(a, p + i).value - p + q)
  {
    var k := SomeDigitsEnd(a, p + i).value - p;
    Same(a, p, b, q, n, i);
    if k < n { Same(a, p, b, q, n, k); }
    DigitsLocal(a, p + i, b, q + i, k - i);
  }

  lemma NumberLocal(a: string, p: nat, b: string, q: nat, n: nat)
    requires Agree(a, p, b, q, n) && p < |a| && q < |b| && EndsNumber(b, q + n)
    requires var l := NumberAt(a, p); l.Some? && l.value.end == p + n
    ensures NumberAt(b, q) == Some(Lexeme(NumberAt(a, p).value.token, q, q + n))
  {
    NumberEndsLocal(a, p, b, q, n);
    SameText(a, p, b, q, n, n);
  }

  lemma NumberEndsLocal(a: string, p: nat, b: string, q: nat, n: nat)
    requires Agree(a, p, b, q, n) && p < |a| && q < |b| && EndsNumber(b, q + n)
    requires var ends := NumberEnds(a, p); ends.Some? && ends.value.1 == p + n
    ensures NumberEnds(b, q) == Some((NumberEnds(a, p).value.0 - p + q, q + n))
  {
    Same(a, p, b, q, n, 0);
    var sign := if a[p] == '-' then 1 else 0;
    var whole := NumberEndsParts(a, p, sign, p + n);
    NumberEndsSigned(a, p, b, q, n, sign, whole - p);
  }

  lemma NumberEndsSigned(a: string, p: nat, b: string, q: nat, n: nat, sign: nat, whole: nat)
    requires Agree(a, p, b, q, n) && EndsNumber(b, q + n) && sign <= whole <= n
    requires q < |b| && sign == (if b[q] == '-' then 1 else 0)
    requires IntegerEnd(a, p + sign) == Some(p + whole) && FloatEnd(a, p + whole) == Some(p + n)
    ensures NumberEnds(b, q) == Some((q + whole, q + n))
  {
    NumberPartsLocal(a, p, b, q, n, sign, whole);
    NumberEndsWhole(b, q, sign, q + whole, q + n);
  }

  lemma NumberEndsParts(a: string, p: nat, sign: nat, end: nat) returns (whole: nat)
    requires p < |a| && sign == (if a[p] == '-' then 1 else 0)
    requires NumberEnds(a, p).Some? && NumberEnds(a, p).value.1 == end
    ensures p < whole <= end <= |a| && NumberEnds(a, p) == Some((whole, end))
    ensures IntegerEnd(a, p + sign) == Some(whole) && FloatEnd(a, whole) == Some(end)
  {
    whole := NumberEnds(a, p).value.0;
  }

  lemma NumberEndsWhole(b: string, q: nat, sign: nat, whole: nat, end: nat)
    requires q < |b| && sign == (if b[q] == '-' then 1 else 0) && q + sign <= |b| && whole <= |b|
    requires IntegerEnd(b, q + sign) == Some(whole) && FloatEnd(b, whole) == Some(end)
    ensures NumberEnds(b, q) == Some((whole, end))
  {
  }

  lemma NumberPartsLocal(a: string, p: nat, b: string, q: nat, n: nat, sign: nat, whole: nat)
    requires Agree(a, p, b, q, n) && EndsNumber(b, q + n) && sign <= whole <= n
    requires IntegerEnd(a, p + sign) == Some(p + whole) && FloatEnd(a, p + whole) == Some(p + n)
    ensures IntegerEnd(b, q + sign) == Some(q + whole) && FloatEnd(b, q + whole) == Some(q + n)
  {
    IntegerLocal(a, p, b, q, n, sign);
    FloatLocal(a, p, b, q, n, whole);
  }

  lemma FloatLocal(a: string, p: nat, b: string, q: nat, n: nat, i: nat)
    requires Agree(a, p, b, q, n) && EndsNumber(b, q + n) && i <= n && FloatEnd(a, p + i) == Some(p + n)
    ensures FloatEnd(b, q + i) == Some(q + n)
  {
    FractionLocal(a, p, b, q, n, i);
    ExponentLocal(a, p, b, q, n, FractionEnd(a, p + i).value - p);
  }

  lemma IntegerLocal(a: string, p: nat, b: string, q: nat, n: nat, i: nat)
    requires Agree(a, p, b, q, n) && EndsNumber(b, q + n) && i <= n
    requires var end := IntegerEnd(a, p + i); end.Some? && end.value <= p + n
    ensures IntegerEnd(b, q + i) == Some(IntegerEnd(a, p + i).value - p + q)
  {
    Same(a, p, b, q, n, i);
    if Holds(a, p + i, '0') {
      if i + 1 < n { Same(a, p, b, q, n, i + 1); }
    } else {
      SomeDigitsLocal(a, p, b, q, n, i);
    }
  }

  lemma FractionLocal(a: string, p: nat, b: string, q: nat, n: nat, i: nat)
    requires Agree(a, p, b, q, n) && EndsNumber(b, q + n) && i <= n
    requires var end := FractionEnd(a, p + i); end.Some? && end.value <= p + n
    ensures FractionEnd(b, q + i) == Some(FractionEnd(a, p + i).value - p + q)
  {
    if i < n {
      Same(a, p, b, q, n, i);
      if Holds(a, p + i, '.') { SomeDigitsLocal(a, p, b, q, n, i + 1); }
    }
  }

  lemma ExponentLocal(a: string, p: nat, b: string, q: nat, n: nat, i: nat)
    requires Agree(a, p, b, q, n) && EndsNumber(b, q + n) && i <= n
    requires var end := ExponentEnd(a, p + i); end.Some? && end.value <= p + n
    ensures ExponentEnd(b, q + i) == Some(ExponentEnd(a, p + i).value - p + q)
  {
    if i < n {
      Same(a, p, b, q, n, i);
      if Holds(a, p + i, 'e') || Holds(a, p + i, 'E') {
        Same(a, p, b, q, n, i + 1);
        var signed := Holds(a, p + i + 1, '+') || Holds(a, p + i + 1, '-');
        SomeDigitsLocal(a, p, b, q, n, if signed then i + 2 else i + 1);
      }
    }
  }

  lemma EscapeLocal(a: string, p: nat, b: string, q: nat, n: nat)
    requires Agree(a, p, b, q, n) && p < |a| && q < |b|
    requires var e := EscapeAt(a, p); e.Some? && e.value.1 <= p + n
    ensures EscapeAt(b, q) == Some((EscapeAt(a, p).value.0, EscapeAt(a, p).value.1 - p + q))
  {
    Same(a, p, b, q, n, 1);
    if SimpleEscape(a[p + 1]).None? {
      Shorter(a, p, b, q, n, 2);
      SameText(a, p + 2, b, q + 2, n - 2, 4);
    }
  }

  /** The first character of a string, escaped or not, reads the same in both places. */
  lemma StringStep(a: string, p: nat, b: string, q: nat, n: nat, k: nat, c: char)
    requires Agree(a, p, b, q, n) && 0 < k <= n && a[p] != '"' && !EndsLine(a[p])
    requires if a[p] == '\\' then EscapeAt(a, p) == Some((c, p + k)) else k == 1 && c == a[p]
    ensures StringRest(b, q) == Onto([c], StringRest(b, q + k))
  {
    Same(a, p, b, q, n, 0);
    if a[p] == '\\' { EscapeLocal(a, p, b, q, n); }
  }

  /** The first character of a string that does not end here, and how many characters it is written with. */
  lemma StringHead(a: string, p: nat) returns (k: nat, c: char)
    requires p <= |a| && StringRest(a, p).Some? && a[p] != '"'
    ensures 0 < k && p + k <= |a| && !EndsLine(a[p])
    ensures if a[p] == '\\' then EscapeAt(a, p) == Some((c, p + k)) else k == 1 && c == a[p]
    ensures StringRest(a, p) == Onto([c], StringRest(a, p + k))
  {
    k := if a[p] == '\\' then EscapeAt(a, p).value.1 - p else 1;
    c := if a[p] == '\\' then EscapeAt(a, p).value.0 else a[p];
  }

  lemma {:induction false} StringLocal(a: string, p: nat, b: string, q: nat, n: nat)
    requires Agree(a, p, b, q, n)
    requires var t := StringRest(a, p); t.Some? && t.value.1 == p + n
    ensures StringRest(b, q) == Some((StringRest(a, p).value.0, q + n))
    decreases n
  {
    if a[p] == '"' {
      Same(a, p, b, q, n, 0);
    } else {
      var k, c := StringHead(a, p);
      Shorter(a, p, b, q, n, k);
      StringLocal(a, p + k, b, q + k, n - k);
      StringStep(a, p, b, q, n, k, c);
    }
  }

  lemma TripleLocal(a: string, p: nat, b: string, q: nat, n: nat, i: nat)
    requires Agree(a, p, b, q, n) && i + 3 <= n
    ensures TripleQuote(a, p + i) == TripleQuote(b, q + i)
  {
    Same(a, p, b, q, n, i);
    Same(a, p, b, q, n, i + 1);
    Same(a, p, b, q, n, i + 2);
  }

  lemma {:induction false} BlockLocal(a: string, p: nat, b: string, q: nat, n: nat)
    requires Agree(a, p, b, q, n)
    requires var t := BlockRest(a, p); t.Some? && t.value.1 == p + n
    ensures BlockRest(b, q) == Some((BlockRest(a, p).value.0, q + n))
    decreases n
  {
    BlockLeaves(a, p);
    Same(a, p, b, q, n, 0);
    TripleLocal(a, p, b, q, n, 0);
    if !TripleQuote(a, p) {
      BlockLeaves(a, p + 1);
      if n >= 4 { TripleLocal(a, p, b, q, n, 1); }
      var k := if a[p] == '\\' && TripleQuote(a, p + 1) then 4 else 1;
      Shorter(a, p, b, q, n, k);
      BlockLocal(a, p + k, b, q + k, n - k);
    }
  }

  /** A block string needs room for its closing quotes. */
  lemma {:induction false} BlockLeaves(a: string, p: nat)
    requires p <= |a|
    ensures BlockRest(a, p).Some? ==> p + 3 <= BlockRest(a, p).value.1
    decreases |a| - p
  {
    if p < |a| && !TripleQuote(a, p) {
      BlockLeaves(a, if a[p] == '\\' && TripleQuote(a, p + 1) then p + 4 else p + 1);
    }
  }

  /** A lexeme's token depends on its own characters only, as long as what follows cannot prolong it. */
  lemma LexemeLocal(a: string, p: nat, b: string, q: nat, n: nat)
    requires Agree(a, p, b, q, n) && p < |a| && q < |b|
    requires var l := LexemeAt(a, p); l.Some? && l.value.end == p + n && EndsAt(l.value.token, b, q + n)
    ensures LexemeAt(b, q) == Some(Lexeme(LexemeAt(a, p).value.token, q, q + n))
  {
    Same(a, p, b, q, n, 0);
    if a[p] == '.' || Punctuator(a[p]).Some? {
      PunctuatorLocal(a, p, b, q, n);
    } else if IsNameStart(a[p]) {
      WordLocal(a, p, b, q, n);
    } else if a[p] == '-' || IsDigit(a[p]) {
      NumberLocal(a, p, b, q, n);
    } else {
      QuotedLocal(a, p, b, q, n);
    }
  }

  lemma PunctuatorLocal(a: string, p: nat, b: string, q: nat, n: nat)
    requires Agree(a, p, b, q, n) && p < |a| && q < |b| && (a[p] == '.' || Punctuator(a[p]).Some?)
    requires var l := LexemeAt(a, p); l.Some? && l.value.end == p + n
    ensures LexemeAt(b, q) == Some(Lexeme(LexemeAt(a, p).value.token, q, q + n))
  {
    Same(a, p, b, q, n, 0);
    if a[p] == '.' {
      Same(a, p, b, q, n, 1);
      Same(a, p, b, q, n, 2);
    }
  }

  lemma NameThere(a: string, p: nat)
    requires p < |a| && IsNameStart(a[p])
    ensures LexemeAt(a, p) == Some(Lexeme(Name(a[p..NameEnd(a, p + 1)]), p, NameEnd(a, p + 1)))
  {
    assert a[p] != '.' && Punctuator(a[p]).None?;
  }

  lemma WordLocal(a: string, p: nat, b: string, q: nat, n: nat)
    requires Agree(a, p, b, q, n) && p < |a| && q < |b| && IsNameStart(a[p])
    requires var l := LexemeAt(a, p); l.Some? && l.value.end == p + n && EndsAt(l.value.token, b, q + n)
    ensures LexemeAt(b, q) == Some(Lexeme(LexemeAt(a, p).value.token, q, q + n))
  {
    Same(a, p, b, q, n, 0);
    NameThere(a, p);
    NameThere(b, q);
    Shorter(a, p, b, q, n, 1);
    NameLocal(a, p + 1, b, q + 1, n - 1);
    SameText(a, p, b, q, n, n);
  }

  lemma QuotedLocal(a: string, p: nat, b: string, q: nat, n: nat)
    requires Agree(a, p, b, q, n) && p < |a| && q < |b| && a[p] == '"'
    requires var l := LexemeAt(a, p); l.Some? && l.value.end == p + n && EndsAt(l.value.token, b, q + n)
    ensures LexemeAt(b, q) == Some(Lexeme(LexemeAt(a, p).value.token, q, q + n))
  {
    Same(a, p, b, q, n, 0);
    if TripleQuote(a, p) {
      BlockAtLocal(a, p, b, q, n);
      assert LexemeAt(a, p) == BlockAt(a, p) && LexemeAt(b, q) == BlockAt(b, q);
    } else {
      assert LexemeAt(a, p) == StringAt(a, p);
      NotTripleThere(a, p, b, q, n);
      assert LexemeAt(b, q) == StringAt(b, q);
      StringAtLocal(a, p, b, q, n);
    }
  }

  lemma StringAtLocal(a: string, p: nat, b: string, q: nat, n: nat)
    requires Agree(a, p, b, q, n) && p < |a| && q < |b|
    requires var l := StringAt(a, p); l.Some? && l.value.end == p + n
    ensures StringAt(b, q) == Some(Lexeme(StringAt(a, p).value.token, q, q + n))
  {
    Shorter(a, p, b, q, n, 1);
    StringLocal(a, p + 1, b, q + 1, n - 1);
  }

  lemma BlockAtLocal(a: string, p: nat, b: string, q: nat, n: nat)
    requires Agree(a, p, b, q, n) && TripleQuote(a, p)
    requires var l := BlockAt(a, p); l.Some? && l.value.end == p + n
    ensures TripleQuote(b, q) && BlockAt(b, q) == Some(Lexeme(BlockAt(a, p).value.token, q, q + n))
  {
    BlockLeaves(a, p + 3);
    TripleLocal(a, p, b, q, n, 0);
    Shorter(a, p, b, q, n, 3);
    BlockLocal(a, p + 3, b, q + 3, n - 3);
  }

  lemma NotTripleThere(a: string, p: nat, b: string, q: nat, n: nat)
    requires Agree(a, p, b, q, n) && p < |a| && q < |b| && a[p] == '"' && !TripleQuote(a, p)
    requires var l := StringAt(a, p); l.Some? && l.value.end == p + n && EndsAt(l.value.token, b, q + n)
    ensures !TripleQuote(b, q)
  {
    Same(a, p, b, q, n, 1);
    if n >= 3 { TripleLocal(a, p, b, q, n, 0); }
  }

  // ----- the lexemes of a whole text ----------------------------------------------------------------

  function Lexemes(body: string, from: nat): seq<Lexeme>
    requires from <= |body|
    decreases |body| - from
  {
    match NextLexeme(body, from)
    case None => []
    case Some(l) => if l.token == EndOfFile then [l] else [l] + Lexemes(body, l.end)
  }

  /** The lexeme comes after `from`, passes over ignored characters only, and is what its own span alone
      lexes to; the end of file spans nothing, at the end. */
  ghost predicate Placed(body: string, from: nat, l: Lexeme) {
    && from <= l.start <= l.end <= |body|
    && Ignorable(body, from, l.start)
    && (if l.token == EndOfFile then l.start == l.end == |body|
        else l.start < l.end && LexemeAt(body[l.start..l.end], 0) == Some(Lexeme(l.token, 0, l.end - l.start)))
  }

  lemma NextIsPlaced(body: string, from: nat)
    requires from <= |body| && NextLexeme(body, from).Some?
    ensures Placed(body, from, NextLexeme(body, from).value)
  {
    IgnoresExactly(body, from);
    var l := NextLexeme(body, from).value;
    if l.token != EndOfFile {
      var own := body[l.start..l.end];
      LexemeLocal(body, l.start, own, 0, |own|);
    }
  }

  /** The tokens of lexemes that end with the file, or else break off where a character cannot be lexed. */
  function StreamOf(ls: seq<Lexeme>): Stream
    decreases |ls|
  {
    if ls == [] then Last(Invalid)
    else if ls[0].token == EndOfFile then Last(EndOfFile)
    else Put(ls[0].token, StreamOf(ls[1..]))
  }

  lemma {:induction false} StreamOfLexemes(body: string, from: nat)
    requires from <= |body|
    ensures Tokens(body, from) == StreamOf(Lexemes(body, from))
    decreases |body| - from
  {
    match NextLexeme(body, from)
    case None =>
    case Some(l) => if l.token != EndOfFile { StreamOfLexemes(body, l.end); }
  }

  /** Each lexeme is placed after the one before. */
  ghost predicate InPlace(body: string, from: nat, ls: seq<Lexeme>)
    decreases |ls|
  {
    ls == [] || (Placed(body, from, ls[0]) && InPlace(body, ls[0].end, ls[1..]))
  }

  /** Lexing loses nothing: consecutive lexemes are in order with only ignored characters between them,
      and each is recoverable from its span. */
  lemma {:induction false} LexingIsLossless(body: string, from: nat)
    requires from <= |body|
    ensures InPlace(body, from, Lexemes(body, from))
    decreases |body| - from
  {
    var ls := Lexemes(body, from);
    if ls != [] {
      NextIsPlaced(body, from);
      if ls[0].token != EndOfFile {
        LexingIsLossless(body, ls[0].end);
        assert ls[1..] == Lexemes(body, ls[0].end);
      }
    }
  }
}
