/** The lexer of fastql/language/lexer.py: what stands at each offset of a source text, the class that
    reads it, and the text as one stream of tokens. */
module Lexer {
  import opened Ast

  /** `Invalid` stands for the syntax error the lexer raises instead of a token. */
  datatype Token =
    | EndOfFile | Invalid
    | Bang | Dollar | Amp | ParenL | ParenR | Spread | Colon | Equals | At
    | BracketL | BracketR | BraceL | BraceR | Pipe
    | Name(value: string) | Int(lexeme: string) | Float(lexeme: string)
    | Str(text: string) | BlockStr(raw: string)

  /** Tokens not yet consumed; the last one is the end of the file or an error. */
  datatype Stream = Last(head: Token) | Put(head: Token, rest: Stream)

  /** A token with its character offsets. */
  datatype Lexeme = Lexeme(token: Token, start: nat, end: nat)

  // ----- character classes -----------------------------------------------------------------

  predicate IsBlank(c: char) { c == ' ' || c == '\t' || c == '\r' || c == '\n' || c == '\U{FEFF}' || c == ',' }

  predicate EndsLine(c: char) { c == '\r' || c == '\n' }

  predicate IsDigit(c: char) { '0' <= c <= '9' }

  predicate IsNameStart(c: char) { c == '_' || 'A' <= c <= 'Z' || 'a' <= c <= 'z' }

  predicate IsNameContinue(c: char) { IsNameStart(c) || IsDigit(c) }

  predicate IsHex(c: char) { IsDigit(c) || 'a' <= c <= 'f' || 'A' <= c <= 'F' }

  predicate Holds(body: string, pos: int, c: char) { 0 <= pos < |body| && body[pos] == c }

  // ----- where each reader stops -------------------------------------------------------------

  function CommentEnd(body: string, pos: nat): (end: nat)
    requires pos <= |body|
    ensures pos <= end <= |body| && (end < |body| ==> EndsLine(body[end]))
    ensures forall i | pos <= i < end :: !EndsLine(body[i])
    decreases |body| - pos
  {
    if pos < |body| && !EndsLine(body[pos]) then CommentEnd(body, pos + 1) else pos
  }

  /** Where `_skip_ignored` stops. */
  function IgnoredEnd(body: string, pos: nat): (end: nat)
    requires pos <= |body|
    ensures pos <= end <= |body|
    ensures end < |body| ==> !IsBlank(body[end]) && body[end] != '#'
    decreases |body| - pos
  {
    if pos == |body| then pos
    else if IsBlank(body[pos]) then IgnoredEnd(body, pos + 1)
    else if body[pos] == '#' then IgnoredEnd(body, CommentEnd(body, pos + 1))
    else pos
  }

  function NameEnd(body: string, pos: nat): (end: nat)
    requires pos <= |body|
    ensures pos <= end <= |body| && (end < |body| ==> !IsNameContinue(body[end]))
    ensures forall i | pos <= i < end :: IsNameContinue(body[i])
    decreases |body| - pos
  {
    if pos < |body| && IsNameContinue(body[pos]) then NameEnd(body, pos + 1) else pos
  }

  function DigitsEnd(body: string, pos: nat): (end: nat)
    requires pos <= |body|
    ensures pos <= end <= |body| && (end < |body| ==> !IsDigit(body[end]))
    ensures forall i | pos <= i < end :: IsDigit(body[i])
    decreases |body| - pos
  {
    if pos < |body| && IsDigit(body[pos]) then DigitsEnd(body, pos + 1) else pos
  }

  /** One or more digits. */
  function SomeDigitsEnd(body: string, pos: nat): (end: Option<nat>)
    requires pos <= |body|
    ensures end.Some? ==> pos < end.value <= |body|
  {
    if pos < |body| && IsDigit(body[pos]) then Some(DigitsEnd(body, pos)) else None
  }

  function IntegerEnd(body: string, pos: nat): (end: Option<nat>)
    requires pos <= |body|
    ensures end.Some? ==> pos < end.value <= |body|
  {
    if !Holds(body, pos, '0') then SomeDigitsEnd(body, pos)
    else if pos + 1 < |body| && IsDigit(body[pos + 1]) then None
    else Some(pos + 1)
  }

  function FractionEnd(body: string, pos: nat): (end: Option<nat>)
    requires pos <= |body|
    ensures end.Some? ==> pos <= end.value <= |body|
  {
    if Holds(body, pos, '.') then SomeDigitsEnd(body, pos + 1) else Some(pos)
  }

  function ExponentEnd(body: string, pos: nat): (end: Option<nat>)
    requires pos <= |body|
    ensures end.Some? ==> pos <= end.value <= |body|
  {
    if !Holds(body, pos, 'e') && !Holds(body, pos, 'E') then Some(pos)
    else SomeDigitsEnd(body, if Holds(body, pos + 1, '+') || Holds(body, pos + 1, '-') then pos + 2 else pos + 1)
  }

  /** Where a number's integer part ends, and where the number does. */
  function NumberEnds(body: string, start: nat): (r: Option<(nat, nat)>)
    requires start < |body|
    ensures r.Some? ==> start < r.value.0 <= r.value.1 <= |body|
  {
    var whole :- IntegerEnd(body, if body[start] == '-' then start + 1 else start);
    var end :- FloatEnd(body, whole);
    Some((whole, end))
  }

  /** Where an optional fraction and exponent end. */
  function FloatEnd(body: string, pos: nat): (end: Option<nat>)
    requires pos <= |body|
    ensures end.Some? ==> pos <= end.value <= |body|
  {
    var fraction :- FractionEnd(body, pos);
    ExponentEnd(body, fraction)
  }

  function NumberAt(body: string, start: nat): (r: Option<Lexeme>)
    requires start < |body|
    ensures r.Some? ==> r.value.start == start < r.value.end <= |body| && (r.value.token.Int? || r.value.token.Float?)
  {
    var ends :- NumberEnds(body, start);
    var text := body[start..ends.1];
    Some(Lexeme(if ends.1 > ends.0 then Float(text) else Int(text), start, ends.1))
  }

  function HexValue(c: char): (n: nat)
    requires IsHex(c)
    ensures n < 16
  {
    if IsDigit(c) then c as int - '0' as int
    else if 'a' <= c <= 'f' then c as int - 'a' as int + 10
    else c as int - 'A' as int + 10
  }

  /** The number four hexadecimal digits spell. */
  function HexNumber(s: string): (n: nat)
    requires |s| == 4 && forall c <- s :: IsHex(c)
    ensures n < 0x10000
  {
    HexValue(s[0]) * 4096 + HexValue(s[1]) * 256 + HexValue(s[2]) * 16 + HexValue(s[3])
  }

  /** The character of a four-digit code; a lone surrogate, which is no character here, becomes U+FFFD. */
  function CodeChar(code: nat): char
    requires code < 0x10000
  {
    if 0xD800 <= code < 0xE000 then '\U{FFFD}' else code as char
  }

  function SimpleEscape(c: char): Option<char> {
    if c == '"' || c == '\\' || c == '/' then Some(c)
    else if c == 'b' then Some('\U{0008}')
    else if c == 'f' then Some('\U{000C}')
    else if c == 'n' then Some('\n')
    else if c == 'r' then Some('\r')
    else if c == 't' then Some('\t')
    else None
  }

  /** The character a backslash sequence stands for, and where the sequence ends. */
  function EscapeAt(body: string, pos: nat): (r: Option<(char, nat)>)
    requires pos < |body|
    ensures r.Some? ==> pos < r.value.1 <= |body|
  {
    if pos + 1 == |body| then None
    else if SimpleEscape(body[pos + 1]).Some? then Some((SimpleEscape(body[pos + 1]).value, pos + 2))
    else if body[pos + 1] == 'u' && pos + 6 <= |body| && forall c <- body[pos + 2..pos + 6] :: IsHex(c) then
      Some((CodeChar(HexNumber(body[pos + 2..pos + 6])), pos + 6))
    else None
  }

  /** Text decoded up to a position, put before what follows it. */
  function Onto(front: string, r: Option<(string, nat)>): Option<(string, nat)> {
    if r.None? then None else Some((front + r.value.0, r.value.1))
  }

  /** Within a string: the rest of its decoded text, and where the closing quote ends. */
  function StringRest(body: string, pos: nat): (r: Option<(string, nat)>)
    requires pos <= |body|
    ensures r.Some? ==> pos < r.value.1 <= |body|
    decreases |body| - pos
  {
    if pos == |body| || EndsLine(body[pos]) then None
    else if body[pos] == '"' then Some(("", pos + 1))
    else if body[pos] == '\\' then
      var e :- EscapeAt(body, pos);
      Onto([e.0], StringRest(body, e.1))
    else Onto([body[pos]], StringRest(body, pos + 1))
  }

  predicate TripleQuote(body: string, pos: nat) {
    Holds(body, pos, '"') && Holds(body, pos + 1, '"') && Holds(body, pos + 2, '"')
  }

  /** Within a block string: the rest of its raw text, and where the closing quotes end. */
  function BlockRest(body: string, pos: nat): (r: Option<(string, nat)>)
    requires pos <= |body|
    ensures r.Some? ==> pos < r.value.1 <= |body|
    decreases |body| - pos
  {
    if pos == |body| then None
    else if TripleQuote(body, pos) then Some(("", pos + 3))
    else if body[pos] == '\\' && TripleQuote(body, pos + 1) then Onto("\"\"\"", BlockRest(body, pos + 4))
    else Onto([body[pos]], BlockRest(body, pos + 1))
  }

  function StringAt(body: string, start: nat): (r: Option<Lexeme>)
    requires start < |body|
    ensures r.Some? ==> r.value.start == start < r.value.end <= |body| && r.value.token.Str?
  {
    var t :- StringRest(body, start + 1);
    Some(Lexeme(Str(t.0), start, t.1))
  }

  function BlockAt(body: string, start: nat): (r: Option<Lexeme>)
    requires TripleQuote(body, start)
    ensures r.Some? ==> r.value.start == start < r.value.end <= |body| && r.value.token.BlockStr?
  {
    var t :- BlockRest(body, start + 3);
    Some(Lexeme(BlockStr(t.0), start, t.1))
  }

  function Punctuator(c: char): Option<Token> {
    if c == '!' then Some(Bang) else if c == '$' then Some(Dollar) else if c == '&' then Some(Amp)
    else if c == '(' then Some(ParenL) else if c == ')' then Some(ParenR)
    else if c == ':' then Some(Colon) else if c == '=' then Some(Equals) else if c == '@' then Some(At)
    else if c == '[' then Some(BracketL) else if c == ']' then Some(BracketR)
    else if c == '{' then Some(BraceL) else if c == '}' then Some(BraceR)
    else if c == '|' then Some(Pipe) else None
  }

  /** The lexeme that starts exactly at `pos`. */
  function LexemeAt(body: string, pos: nat): (r: Option<Lexeme>)
    requires pos < |body|
    ensures r.Some? ==> r.value.start == pos < r.value.end <= |body|
    ensures r.Some? ==> r.value.token != EndOfFile && r.value.token != Invalid
  {
    if body[pos] == '.' then
      if Holds(body, pos + 1, '.') && Holds(body, pos + 2, '.') then Some(Lexeme(Spread, pos, pos + 3)) else None
    else if Punctuator(body[pos]).Some? then Some(Lexeme(Punctuator(body[pos]).value, pos, pos + 1))
    else if IsNameStart(body[pos]) then
      Some(Lexeme(Name(body[pos..NameEnd(body, pos + 1)]), pos, NameEnd(body, pos + 1)))
    else if body[pos] == '-' || IsDigit(body[pos]) then NumberAt(body, pos)
    else if TripleQuote(body, pos) then BlockAt(body, pos)
    else if body[pos] == '"' then StringAt(body, pos)
    else None
  }

  /** The lexeme `_read_token` finds from `from` on. */
  function NextLexeme(body: string, from: nat): (r: Option<Lexeme>)
    requires from <= |body|
    ensures r.Some? ==> from <= r.value.start <= r.value.end <= |body|
    ensures r.Some? ==> (r.value.token == EndOfFile <==> r.value.start == |body|) && r.value.token != Invalid
    ensures r.Some? ==> (r.value.token == EndOfFile <==> r.value.end == r.value.start)
  {
    var pos := IgnoredEnd(body, from);
    if pos == |body| then Some(Lexeme(EndOfFile, pos, pos)) else LexemeAt(body, pos)
  }

  /** All tokens from `from` on, up to the end of file or the first error. */
  function Tokens(body: string, from: nat): Stream
    requires from <= |body|
    decreases |body| - from
  {
    match NextLexeme(body, from)
    case None => Last(Invalid)
    case Some(l) => if l.token == EndOfFile then Last(EndOfFile) else Put(l.token, Tokens(body, l.end))
  }

  // ----- the lexer object ----------------------------------------------------------------------

  class Lexer {
    const body: string
    var token: Lexeme

    /** The start-of-file sentinel spans nothing; it is never a token of the text. */
    constructor (body: string)
      ensures this.body == body && token == Lexeme(Invalid, 0, 0)
    {
      this.body := body;
      token := Lexeme(Invalid, 0, 0);
    }

    /** `advance`; a syntax error leaves the current token. */
    method Advance() returns (ok: bool)
      requires token.end <= |body|
      modifies this`token
      ensures ok == NextLexeme(body, old(token.end)).Some?
      ensures token == if ok then NextLexeme(body, old(token.end)).value else old(token)
    {
      var next := ReadToken(token.end);
      ok := next.Some?;
      if ok { token := next.value; }
    }

    /** `_read_token`. */
    method ReadToken(from: nat) returns (r: Option<Lexeme>)
      requires from <= |body|
      ensures r == NextLexeme(body, from)
    {
      var pos := SkipIgnored(from);
      if pos >= |body| { return Some(Lexeme(EndOfFile, pos, pos)); }
      var ch := body[pos];
      if ch == '.' {
        if Holds(body, pos + 1, '.') && Holds(body, pos + 2, '.') { return Some(Lexeme(Spread, pos, pos + 3)); }
        return None;
      }
      if Punctuator(ch).Some? { return Some(Lexeme(Punctuator(ch).value, pos, pos + 1)); }
      if IsNameStart(ch) {
        var name := ReadName(pos);
        return Some(name);
      }
      if ch == '-' || IsDigit(ch) {
        r := ReadNumber(pos);
      } else if ch == '"' {
        if TripleQuote(body, pos) { r := ReadBlockString(pos); } else { r := ReadString(pos); }
      } else {
        r := None;
      }
    }

    /** `_skip_ignored`. */
    method SkipIgnored(from: nat) returns (pos: nat)
      requires from <= |body|
      ensures pos == IgnoredEnd(body, from)
    {
      pos := from;
      while pos < |body|
        invariant pos <= |body| && IgnoredEnd(body, pos) == IgnoredEnd(body, from)
      {
        if IsBlank(body[pos]) {
          pos := pos + 1;
        } else if body[pos] == '#' {
          ghost var end := CommentEnd(body, pos + 1);
          pos := pos + 1;
          while pos < |body| && !EndsLine(body[pos])
            invariant pos <= end && CommentEnd(body, pos) == end
          {
            pos := pos + 1;
          }
        } else {
          break;
        }
      }
    }

    /** `_read_name`. */
    method ReadName(start: nat) returns (r: Lexeme)
      requires start < |body|
      ensures r == Lexeme(Name(body[start..NameEnd(body, start + 1)]), start, NameEnd(body, start + 1))
    {
      var pos := start + 1;
      while pos < |body| && IsNameContinue(body[pos])
        invariant start < pos <= |body| && NameEnd(body, pos) == NameEnd(body, start + 1)
      {
        pos := pos + 1;
      }
      r := Lexeme(Name(body[start..pos]), start, pos);
    }

    /** `_read_number`. */
    method ReadNumber(start: nat) returns (r: Option<Lexeme>)
      requires start < |body|
      ensures r == NumberAt(body, start)
    {
      var whole := ReadInteger(if body[start] == '-' then start + 1 else start);
      if whole.None? { return None; }
      var pos := whole.value;
      var isFloat := false;
      if pos < |body| && body[pos] == '.' {
        isFloat := true;
        var digits := ReadDigits(pos + 1);
        if digits.None? { return None; }
        pos := digits.value;
      }
      if pos < |body| && (body[pos] == 'e' || body[pos] == 'E') {
        isFloat := true;
        var exponent := ReadExponent(pos);
        if exponent.None? { return None; }
        pos := exponent.value;
      }
      r := Some(Lexeme(if isFloat then Float(body[start..pos]) else Int(body[start..pos]), start, pos));
    }

    /** The digits before a fraction or exponent. */
    method ReadInteger(start: nat) returns (r: Option<nat>)
      requires start <= |body|
      ensures r == IntegerEnd(body, start)
    {
      if start < |body| && body[start] == '0' {
        if start + 1 < |body| && IsDigit(body[start + 1]) { return None; }
        r := Some(start + 1);
      } else {
        r := ReadDigits(start);
      }
    }

    /** An exponent that is there. */
    method ReadExponent(start: nat) returns (r: Option<nat>)
      requires Holds(body, start, 'e') || Holds(body, start, 'E')
      ensures r == ExponentEnd(body, start)
    {
      var pos := start + 1;
      if pos < |body| && (body[pos] == '+' || body[pos] == '-') { pos := pos + 1; }
      r := ReadDigits(pos);
    }

    /** `_read_digits`. */
    method ReadDigits(start: nat) returns (r: Option<nat>)
      requires start <= |body|
      ensures r == SomeDigitsEnd(body, start)
    {
      if start >= |body| || !IsDigit(body[start]) { return None; }
      var pos := start;
      while pos < |body| && IsDigit(body[pos])
        invariant start <= pos <= |body| && DigitsEnd(body, pos) == DigitsEnd(body, start)
      {
        pos := pos + 1;
      }
      r := Some(pos);
    }

    /** `_read_string`: runs of plain characters are copied as chunks, escapes one by one. */
    method ReadString(start: nat) returns (r: Option<Lexeme>)
      requires start < |body|
      ensures r == StringAt(body, start)
    {
      var pos := start + 1;
      var chunks := "";
      var chunkStart := pos;
      ghost var decoded := "";
      OntoNothing(StringRest(body, pos));
      while pos < |body|
        invariant start < chunkStart <= pos <= |body| && decoded == chunks + body[chunkStart..pos]
        invariant Onto(decoded, StringRest(body, pos)) == StringRest(body, start + 1)
      {
        var ch := body[pos];
        if ch == '"' {
          chunks := chunks + body[chunkStart..pos];
          assert decoded + "" == chunks;
          return Some(Lexeme(Str(chunks), start, pos + 1));
        }
        if EndsLine(ch) { break; }
        if ch == '\\' {
          chunks := chunks + body[chunkStart..pos];
          var escape := ReadEscape(pos);
          if escape.None? { return None; }
          pos := escape.value.1;
          OntoMore(decoded, [escape.value.0], StringRest(body, pos));
          chunks := chunks + [escape.value.0];
          chunkStart := pos;
          decoded := chunks;
        } else {
          pos := pos + 1;
          OntoMore(decoded, [ch], StringRest(body, pos));
          decoded := decoded + [ch];
        }
      }
      r := None;
    }

    /** `_read_escape`. */
    method ReadEscape(pos: nat) returns (r: Option<(char, nat)>)
      requires pos < |body|
      ensures r == EscapeAt(body, pos)
    {
      if pos + 1 >= |body| { return None; }
      var ch := body[pos + 1];
      if SimpleEscape(ch).Some? { return Some((SimpleEscape(ch).value, pos + 2)); }
      if ch == 'u' {
        var digits := body[pos + 2..if pos + 6 <= |body| then pos + 6 else |body|];
        if |digits| == 4 && forall c <- digits :: IsHex(c) {
          return Some((CodeChar(HexNumber(digits)), pos + 6));
        }
      }
      r := None;
    }

    /** `_read_block_string`; dedenting the raw text is left aside. */
    method ReadBlockString(start: nat) returns (r: Option<Lexeme>)
      requires TripleQuote(body, start)
      ensures r == BlockAt(body, start)
    {
      var pos := start + 3;
      var chunks := "";
      var chunkStart := pos;
      ghost var decoded := "";
      OntoNothing(BlockRest(body, pos));
      while pos < |body|
        invariant start + 3 <= chunkStart <= pos <= |body| && decoded == chunks + body[chunkStart..pos]
        invariant Onto(decoded, BlockRest(body, pos)) == BlockRest(body, start + 3)
      {
        if TripleQuote(body, pos) {
          chunks := chunks + body[chunkStart..pos];
          assert decoded + "" == chunks;
          return Some(Lexeme(BlockStr(chunks), start, pos + 3));
        }
        if body[pos] == '\\' && TripleQuote(body, pos + 1) {
          chunks := chunks + body[chunkStart..pos] + "\"\"\"";
          pos := pos + 4;
          OntoMore(decoded, "\"\"\"", BlockRest(body, pos));
          chunkStart := pos;
          decoded := chunks;
        } else {
          OntoMore(decoded, [body[pos]], BlockRest(body, pos + 1));
          decoded := decoded + [body[pos]];
          pos := pos + 1;
        }
      }
      r := None;
    }
  }

  lemma OntoNothing(r: Option<(string, nat)>)
    ensures Onto("", r) == r
  {
    if r.Some? { assert "" + r.value.0 == r.value.0; }
  }

  lemma OntoMore(front: string, more: string, rest: Option<(string, nat)>)
    ensures Onto(front, Onto(more, rest)) == Onto(front + more, rest)
  {
    if rest.Some? { assert front + (more + rest.value.0) == front + more + rest.value.0; }
  }
}
