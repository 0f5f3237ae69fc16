/**
 * The part of a GraphQL schema and of a parsed query that the prioritised
 * scheduler inspects, and models of the three GraphQL.NET helpers it calls
 * on them: CollectFieldsFrom, GetFieldDefinition and BuildExecutionNode.
 * Those helpers belong to the GraphQL.NET library, not to this repository;
 * their bodies here follow the library's documented behaviour.
 */
module GraphTypes {
  import opened Wrappers

  /** A type reference as a field or an execution node declares it. */
  datatype GraphType = Named(name: string) | NonNull(ofType: GraphType) | ListOf(ofType: GraphType)

  /** A named type of the schema. Enumerations are scalars here, as in GraphQL.NET. */
  datatype TypeDef =
    | ObjectDef(fields: map<string, GraphType>)
    | InterfaceDef(possibleTypes: seq<string>)
    | UnionDef(possibleTypes: seq<string>)
    | ScalarDef

  type Schema = map<string, TypeDef>

  /**
   * The schema holds the built-in String scalar, which __typename returns,
   * and every possible type of an interface or a union is an object type of
   * the schema.
   */
  predicate WellFormed(schema: Schema) {
    && "String" in schema && schema["String"].ScalarDef?
    && forall a | a in schema && (schema[a].InterfaceDef? || schema[a].UnionDef?) ::
      forall p | p in schema[a].possibleTypes :: p in schema && schema[p].ObjectDef?
  }

  /**
   * A selection of a query document. A named fragment spread is represented by
   * an inline fragment holding the fragment's body.
   */
  datatype Selection =
    | Field(name: string, selectionSet: seq<Selection>)
    | InlineFragment(typeCondition: Option<string>, selectionSet: seq<Selection>)

  /** The number of selections in a selection set, nested ones included. */
  function Size(sels: seq<Selection>): nat {
    if sels == [] then 0 else 1 + Size(sels[0].selectionSet) + Size(sels[1..])
  }

  /** The kinds of execution node: value, object and array nodes. */
  datatype NodeShape = ValueNode | ObjectNode(graphType: GraphType) | ArrayNode(itemType: GraphType)

  /**
   * The declared part of an execution node: its kind with its graph type (an
   * array node's item type, that is the ResolvedType of its list type) and
   * the selection set of its field (empty for the root, whose Field is null).
   */
  datatype PlanNode = PlanNode(shape: NodeShape, selectionSet: seq<Selection>)

  /** The exceptions the classifier can raise. */
  datatype Error =
    | FieldNotDefined(typeName: string, fieldName: string)  // a null field definition is dereferenced
    | UnexpectedType(graphType: GraphType)                   // BuildExecutionNode cannot classify the type

  /**
   * A fragment with this type condition applies to objects of the given type:
   * no condition, the type itself, or an interface or union that lists it.
   */
  function DoesFragmentConditionMatch(schema: Schema, condition: Option<string>, objectType: string): (r: bool)
    ensures condition == None ==> r
    ensures condition.Some? && condition.value !in schema ==> !r
  {
    match condition
    case None => true
    case Some(c) =>
      if c !in schema then false
      else if c == objectType then true
      else match schema[c]
        case InterfaceDef(possible) => objectType in possible
        case UnionDef(possible) => objectType in possible
        case _ => false
  }

  /**
   * The fields a selection set selects on an object of the given type, in
   * document order, after flattening the fragments whose condition applies.
   */
  function CollectFields(schema: Schema, objectType: string, sels: seq<Selection>): (fields: seq<Selection>)
    ensures forall f | f in fields :: f.Field? && Size(f.selectionSet) < Size(sels)
  {
    if sels == [] then []
    else
      var rest := CollectFields(schema, objectType, sels[1..]);
      match sels[0]
      case Field(_, _) => [sels[0]] + rest
      case InlineFragment(condition, sub) =>
        (if DoesFragmentConditionMatch(schema, condition, objectType)
         then CollectFields(schema, objectType, sub) else []) + rest
  }

  /**
   * The type of a field of an object type: the meta-field __typename is a
   * non-null string on every type; other fields come from the schema.
   */
  function FieldDefinition(schema: Schema, objectType: string, fieldName: string): (r: Option<GraphType>)
    ensures fieldName != "__typename" && r.Some? ==>
      objectType in schema && schema[objectType].ObjectDef? && fieldName in schema[objectType].fields
  {
    if fieldName == "__typename" then Some(NonNull(Named("String")))
    else if objectType in schema && schema[objectType].ObjectDef? && fieldName in schema[objectType].fields
    then Some(schema[objectType].fields[fieldName])
    else None
  }

  /**
   * The execution node GraphQL.NET builds for a field of the given type: the
   * non-null wrapper is removed; a list becomes an array node, an object,
   * interface or union type an object node, a scalar a value node; any other
   * type is an error.
   */
  function BuildExecutionNode(schema: Schema, graphType: GraphType, field: Selection): (r: Result<PlanNode, Error>)
    ensures r.Ok? ==> r.value.selectionSet == field.selectionSet
  {
    var t := if graphType.NonNull? then graphType.ofType else graphType;
    match t
    case ListOf(item) => Ok(PlanNode(ArrayNode(item), field.selectionSet))
    case Named(n) =>
      if n !in schema then Err(UnexpectedType(t))
      else if schema[n].ScalarDef? then Ok(PlanNode(ValueNode, field.selectionSet))
      else Ok(PlanNode(ObjectNode(t), field.selectionSet))
    case NonNull(_) => Err(UnexpectedType(t))
  }
}
