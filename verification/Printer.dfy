/** The printer of fastql/language/printer.py. */
module Printer {
  import opened Ast

  function Join(items: seq<string>, sep: string): string {
    if items == [] then "" else if |items| == 1 then items[0] else items[0] + sep + Join(items[1..], sep)
  }

  function NonEmpty(items: seq<string>): seq<string> {
    if items == [] then [] else (if items[0] == "" then [] else [items[0]]) + NonEmpty(items[1..])
  }

  /** `_join`: empty items leave no separator behind. */
  function JoinNonEmpty(items: seq<string>, sep: string): string { Join(NonEmpty(items), sep) }

  /** `_wrap`. */
  function Wrap(start: string, value: string, end: string): string {
    if value == "" then "" else start + value + end
  }

  /** `text.split("\n")`. */
  function Lines(text: string): (lines: seq<string>)
    ensures lines != []
  {
    if text == "" then [""]
    else if text[0] == '\n' then [""] + Lines(text[1..])
    else
      var rest := Lines(text[1..]);
      [[text[0]] + rest[0]] + rest[1..]
  }

  function Shifted(lines: seq<string>): seq<string> {
    if lines == [] then [] else ["  " + lines[0]] + Shifted(lines[1..])
  }

  /** `_block`: the items on lines of their own, indented, between braces. */
  function Block(items: seq<string>): string {
    if items == [] then "" else "{\n" + Join(Shifted(Lines(Join(items, "\n"))), "\n") + "\n}"
  }

  // ----- values and types -------------------------------------------------------------------

  function EscapedChar(c: char): string {
    if c == '"' then "\\\""
    else if c == '\\' then "\\\\"
    else if c == '\n' then "\\n"
    else if c == '\r' then "\\r"
    else if c == '\t' then "\\t"
    else if c == '\U{0008}' then "\\b"
    else if c == '\U{000C}' then "\\f"
    else [c]
  }

  function Escaped(text: string): string {
    if text == "" then "" else EscapedChar(text[0]) + Escaped(text[1..])
  }

  lemma {:induction false} EscapedMore(text: string, c: char)
    ensures Escaped(text + [c]) == Escaped(text) + EscapedChar(c)
  {
    if text == "" {
      assert (text + [c])[1..] == "";
    } else {
      assert (text + [c])[1..] == text[1..] + [c];
      EscapedMore(text[1..], c);
    }
  }

  /** `_escape_string`. */
  method EscapeString(text: string) returns (escaped: string)
    ensures escaped == Escaped(text)
  {
    escaped := "";
    for i := 0 to |text|
      invariant escaped == Escaped(text[..i])
    {
      EscapedMore(text[..i], text[i]);
      assert text[..i] + [text[i]] == text[..i + 1];
      var ch := text[i];
      if ch == '"' { escaped := escaped + "\\\""; }
      else if ch == '\\' { escaped := escaped + "\\\\"; }
      else if ch == '\n' { escaped := escaped + "\\n"; }
      else if ch == '\r' { escaped := escaped + "\\r"; }
      else if ch == '\t' { escaped := escaped + "\\t"; }
      else if ch == '\U{0008}' { escaped := escaped + "\\b"; }
      else if ch == '\U{000C}' { escaped := escaped + "\\f"; }
      else { escaped := escaped + [ch]; }
    }
    assert text[..|text|] == text;
  }

  function PrintValue(v: Value): string
    decreases v
  {
    match v
    case Variable(name) => "$" + name
    case IntValue(lexeme) => lexeme
    case FloatValue(lexeme) => lexeme
    case StringValue(text, block) => if block then "\"\"\"\n" + text + "\n\"\"\"" else "\"" + Escaped(text) + "\""
    case BooleanValue(truth) => if truth then "true" else "false"
    case NullValue => "null"
    case EnumValue(name) => name
    case ListValue(items) => "[" + Join(PrintValues(items), ", ") + "]"
    case ObjectValue(fields) => "{" + Join(PrintObjectFields(fields), ", ") + "}"
  }

  function PrintValues(items: seq<Value>): seq<string>
    decreases items
  {
    if items == [] then [] else [PrintValue(items[0])] + PrintValues(items[1..])
  }

  function PrintObjectFields(fields: seq<ObjectField>): seq<string>
    decreases fields
  {
    if fields == [] then [] else [fields[0].name + ": " + PrintValue(fields[0].value)] + PrintObjectFields(fields[1..])
  }

  function PrintType(t: TypeRef): string {
    match t
    case NamedType(name) => name
    case ListType(u) => "[" + PrintType(u) + "]"
    case NonNull(u) => PrintType(u) + "!"
  }

  // ----- arguments and directives --------------------------------------------------------------

  function PrintArgument(a: Argument): string { a.name + ": " + PrintValue(a.value) }

  function PrintArgumentList(arguments: seq<Argument>): seq<string> {
    if arguments == [] then [] else [PrintArgument(arguments[0])] + PrintArgumentList(arguments[1..])
  }

  function PrintArguments(arguments: seq<Argument>): string { Wrap("(", Join(PrintArgumentList(arguments), ", "), ")") }

  function PrintDirective(d: Directive): string { "@" + d.name + PrintArguments(d.arguments) }

  function PrintDirectiveList(directives: seq<Directive>): seq<string> {
    if directives == [] then [] else [PrintDirective(directives[0])] + PrintDirectiveList(directives[1..])
  }

  function PrintDirectives(directives: seq<Directive>): string { JoinNonEmpty(PrintDirectiveList(directives), " ") }

  // ----- selections ----------------------------------------------------------------------------------

  function PrintSelection(s: Selection): string
    decreases s, 0
  {
    match s
    case Field(name, alias, arguments, directives, sub) =>
      var head := (if alias.Some? then alias.value + ": " else "") + name + PrintArguments(arguments);
      JoinNonEmpty([head, PrintDirectives(directives), if sub.SelectionSet? then PrintSelectionSet(sub.selections)
          else ""], " ")
    case FragmentSpread(name, directives) => JoinNonEmpty(["..." + name, PrintDirectives(directives)], " ")
    case InlineFragment(condition, directives, selections) =>
      JoinNonEmpty(["...", if condition.Some? then "on " + condition.value else "", PrintDirectives(directives),
                    PrintSelectionSet(selections)], " ")
  }

  function PrintSelectionSet(selections: seq<Selection>): string
    decreases selections, 1
  {
    Block(PrintSelections(selections))
  }

  function PrintSelections(selections: seq<Selection>): seq<string>
    decreases selections, 0
  {
    if selections == [] then [] else [PrintSelection(selections[0])] + PrintSelections(selections[1..])
  }

  // ----- definitions -----------------------------------------------------------------------------------

  function PrintVariable(v: VariableDefinition): string {
    var head := "$" + v.name + ": " + PrintType(v.varType) + if v.default.Some? then " = " + PrintValue(v.default.value)
        else "";
    JoinNonEmpty([head, PrintDirectives(v.directives)], " ")
  }

  function PrintVariableList(variables: seq<VariableDefinition>): seq<string> {
    if variables == [] then [] else [PrintVariable(variables[0])] + PrintVariableList(variables[1..])
  }

  function PrintVariables(variables: seq<VariableDefinition>): string {
    Wrap("(", Join(PrintVariableList(variables), ", "), ")")
  }

  function PrintDefinition(d: Definition): string {
    var directives, braces := PrintDirectives(d.directives), PrintSelectionSet(d.selections);
    match d
    case Operation(operation, name, variables, _, _) =>
      var nameText := if name.Some? then name.value else "";
      var variablesText := PrintVariables(variables);
      if operation == "query" && nameText == "" && variablesText == "" && directives == "" then braces
      else JoinNonEmpty([JoinNonEmpty([operation, JoinNonEmpty([nameText, variablesText], "")], " "), directives,
        braces], " ")
    case Fragment(name, condition, _, _) =>
      JoinNonEmpty(["fragment " + name + " on " + condition, directives, braces], " ")
  }

  function PrintDefinitions(definitions: seq<Definition>): seq<string> {
    if definitions == [] then [] else [PrintDefinition(definitions[0])] + PrintDefinitions(definitions[1..])
  }

  /** `print_ast` of a document. */
  function PrintDocument(d: Document): string { Join(PrintDefinitions(d.definitions), "\n\n") + "\n" }
}
