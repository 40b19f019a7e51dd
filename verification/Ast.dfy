/** The executable-document syntax tree shared by every other module. */
module Ast {

  datatype Option<+T> = None | Some(value: T) {
    predicate IsFailure() { None? }

    function PropagateFailure<U>(): Option<U>
      requires None?
    {
      None
    }

    function Extract(): T
      requires Some?
    {
      value
    }
  }

  datatype Value =
    | Variable(name: string)
    | IntValue(lexeme: string)
    | FloatValue(lexeme: string)
    | StringValue(text: string, block: bool)
    | BooleanValue(truth: bool)
    | NullValue
    | EnumValue(name: string)
    | ListValue(items: seq<Value>)
    | ObjectValue(fields: seq<ObjectField>)

  datatype ObjectField = ObjectField(name: string, value: Value)

  datatype Argument = Argument(name: string, value: Value)

  datatype Directive = Directive(name: string, arguments: seq<Argument>)

  datatype TypeRef =
    | NamedType(name: string)
    | ListType(ofType: TypeRef)
    | NonNull(ofType: TypeRef)

  datatype Selection =
    | Field(name: string, alias: Option<string>, arguments: seq<Argument>,
            directives: seq<Directive>, selectionSet: SelectionSet)
    | FragmentSpread(name: string, directives: seq<Directive>)
    | InlineFragment(condition: Option<string>, directives: seq<Directive>, selections: seq<Selection>)

  /** A field's braces: absent, or a list of selections. */
  datatype SelectionSet = NoSelectionSet | SelectionSet(selections: seq<Selection>)

  datatype VariableDefinition =
    VariableDefinition(name: string, varType: TypeRef, default: Option<Value>, directives: seq<Directive>)

  datatype Definition =
    | Operation(operation: string, name: Option<string>, variables: seq<VariableDefinition>,
                directives: seq<Directive>, selections: seq<Selection>)
    | Fragment(fragmentName: string, condition: string, directives: seq<Directive>, selections: seq<Selection>)

  datatype Document = Document(definitions: seq<Definition>)

  /** A field's alias when it has one, otherwise its name. */
  function ResponseKey(node: Selection): string {
    match node
    case Field(name, alias, _, _, _) => if alias.Some? then alias.value else name
    case _ => ""
  }

  /** The type definitions a schema's type map holds, by name. */
  datatype TypeDef =
    | ScalarType
    | EnumType
    | ObjectType(fields: map<string, TypeRef>, interfaces: set<string>)
    | InterfaceType(fields: map<string, TypeRef>)
    | UnionType(members: set<string>)
    | InputObjectType

  /** A fragment definition as the executor's fragment table keeps it. */
  datatype FragmentBody = FragmentBody(condition: string, selections: seq<Selection>)

  /** A coerced variable value, as far as directive conditions look at it. */
  datatype VarValue = VNull | VBool(b: bool) | VInt(n: int) | VOther(truthy: bool)

  /** What field collection reads: schema type map, fragment table, variable values. */
  datatype Env = Env(types: map<string, TypeDef>, fragments: map<string, FragmentBody>,
                     variables: map<string, VarValue>)
}
