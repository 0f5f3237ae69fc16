/**
 * The priority test of the prioritised scheduler: which concrete object types
 * an execution node can expose (GetGraphTypes), and whether some node below
 * it, built from its declared selection set, would expose one of a set of
 * types (HasChildOfGraphType). Both only inspect declared types and the query
 * document; they never run a resolver.
 */
module Classifier {
  import opened Wrappers
  import opened GraphTypes

  /** The concrete object types behind a declared type, after removing one non-null wrapper. */
  function ObjectTypesOf(schema: Schema, graphType: GraphType): seq<string> {
    var t := if graphType.NonNull? then graphType.ofType else graphType;
    if t.Named? && t.name in schema then
      match schema[t.name]
      case InterfaceDef(possible) => possible
      case ObjectDef(_) => [t.name]
      case _ => []
    else []
  }

  /**
   * The object types a node can expose: none for a value node; otherwise the
   * object type itself, or every possible type of an interface. A union, a
   * scalar or a nested list exposes none.
   */
  function GetGraphTypes(schema: Schema, node: PlanNode): (r: seq<string>)
    ensures node.shape.ValueNode? ==> r == []
    ensures WellFormed(schema) ==> forall n | n in r :: n in schema && schema[n].ObjectDef?
  {
    match node.shape
    case ValueNode => []
    case ObjectNode(t) => ObjectTypesOf(schema, t)
    case ArrayNode(item) => ObjectTypesOf(schema, item)
  }

  /**
   * The cases of GetGraphTypes for an object or array node whose declared
   * type, after removing a non-null wrapper, is the named type n: an
   * interface gives its possible types, an object type itself alone, and a
   * union, a scalar or an unknown name nothing. A non-null wrapper changes
   * nothing.
   */
  lemma GetGraphTypesCases(schema: Schema, t: GraphType, n: string, sels: seq<Selection>)
    requires t == Named(n) || t == NonNull(Named(n))
    ensures var r := GetGraphTypes(schema, PlanNode(ObjectNode(t), sels));
            && r == GetGraphTypes(schema, PlanNode(ArrayNode(t), sels))
            && r == GetGraphTypes(schema, PlanNode(ObjectNode(Named(n)), sels))
            && (n in schema && schema[n].InterfaceDef? ==> r == schema[n].possibleTypes)
            && (n in schema && schema[n].ObjectDef? ==> r == [n])
            && (n !in schema || schema[n].UnionDef? || schema[n].ScalarDef? ==> r == [])
  {
  }

  /**
   * In a well-formed schema __typename can be selected on any object type:
   * its child is a value node, which exposes no type and has no children to
   * search.
   */
  lemma TypenameChild(schema: Schema, objectType: string, field: Selection, search: set<string>)
    requires WellFormed(schema) && field.Field? && field.name == "__typename"
    ensures ChildNode(schema, objectType, field) == Ok(PlanNode(ValueNode, field.selectionSet))
    ensures HasChildOfGraphType(schema, ChildNode(schema, objectType, field).value, search) == Ok(false)
  {
  }

  /** Some of the types is in the search set. */
  predicate Meets(types: seq<string>, search: set<string>) {
    exists t | t in types :: t in search
  }

  /** The node GraphQL.NET would build for a selected field of an object type. */
  function ChildNode(schema: Schema, objectType: string, field: Selection): (r: Result<PlanNode, Error>)
    requires field.Field?
    ensures r.Ok? ==> r.value.selectionSet == field.selectionSet
    ensures FieldDefinition(schema, objectType, field.name) == None ==> r.Err?
  {
    match FieldDefinition(schema, objectType, field.name)
    case None => Err(FieldNotDefined(objectType, field.name))
    case Some(t) => BuildExecutionNode(schema, t, field)
  }

  /**
   * The declarative meaning of the priority test: some field selected on one
   * of the node's object types builds a child that exposes a searched type,
   * or whose own subtree does.
   */
  predicate Reaches(schema: Schema, node: PlanNode, search: set<string>)
    decreases Size(node.selectionSet), 1
  {
    exists g, f | g in GetGraphTypes(schema, node) && f in CollectFields(schema, g, node.selectionSet) ::
      Qualifies(schema, g, f, search)
  }

  /** The field's child exists and exposes a searched type or reaches one. */
  predicate Qualifies(schema: Schema, objectType: string, field: Selection, search: set<string>)
    requires field.Field?
    decreases Size(field.selectionSet), 2
  {
    var c := ChildNode(schema, objectType, field);
    c.Ok? && (Meets(GetGraphTypes(schema, c.value), search) || Reaches(schema, c.value, search))
  }

  /** Every child the test may build below the node can be built: the query fits the schema. */
  predicate Resolvable(schema: Schema, node: PlanNode)
    decreases Size(node.selectionSet), 1
  {
    forall g, f | g in GetGraphTypes(schema, node) && f in CollectFields(schema, g, node.selectionSet) ::
      ChildResolvable(schema, g, f)
  }

  predicate ChildResolvable(schema: Schema, objectType: string, field: Selection)
    requires field.Field?
    decreases Size(field.selectionSet), 2
  {
    var c := ChildNode(schema, objectType, field);
    c.Ok? && Resolvable(schema, c.value)
  }

  /**
   * HasChildOfGraphType, evaluated as the LINQ query does: object types in
   * order, fields in order, stopping at the first hit and raising the first
   * error met before it. When it returns, its answer is Reaches; when the
   * query fits the schema, it returns.
   */
  function HasChildOfGraphType(schema: Schema, node: PlanNode, search: set<string>): (r: Result<bool, Error>)
    decreases Size(node.selectionSet), 3, 0
    ensures |GetGraphTypes(schema, node)| == 0 ==> r == Ok(false)
    ensures r.Ok? ==> (r.value <==> Reaches(schema, node, search))
    ensures Resolvable(schema, node) ==> r.Ok?
  {
    var graphTypes := GetGraphTypes(schema, node);
    if |graphTypes| == 0 then Ok(false)
    else AnyGraphType(schema, node, graphTypes, search)
  }

  function AnyGraphType(schema: Schema, node: PlanNode, graphTypes: seq<string>, search: set<string>)
    : (r: Result<bool, Error>)
    requires forall g | g in graphTypes :: g in GetGraphTypes(schema, node)
    decreases Size(node.selectionSet), 2, |graphTypes|
    ensures r.Ok? ==> (r.value <==> exists g, f | g in graphTypes && f in CollectFields(schema, g, node.selectionSet) ::
                                      Qualifies(schema, g, f, search))
    ensures Resolvable(schema, node) ==> r.Ok?
  {
    if graphTypes == [] then Ok(false)
    else
      var fields := CollectFields(schema, graphTypes[0], node.selectionSet);
      assert graphTypes[0] in graphTypes;
      match AnyField(schema, graphTypes[0], fields, search, Size(node.selectionSet))
      case Err(e) => Err(e)
      case Ok(true) =>
        assert exists g, f | g in graphTypes && f in CollectFields(schema, g, node.selectionSet) ::
                 Qualifies(schema, g, f, search) by {
          var f :| f in fields && Qualifies(schema, graphTypes[0], f, search);
        }
        Ok(true)
      case Ok(false) =>
        assert forall g | g in graphTypes :: g == graphTypes[0] || g in graphTypes[1..];
        assert forall f | f in fields :: !Qualifies(schema, graphTypes[0], f, search);
        var r := AnyGraphType(schema, node, graphTypes[1..], search);
        assert forall g, f | g in graphTypes && f in CollectFields(schema, g, node.selectionSet) &&
                             Qualifies(schema, g, f, search) :: g in graphTypes[1..] by {
          forall g, f | g in graphTypes && f in CollectFields(schema, g, node.selectionSet) &&
                        Qualifies(schema, g, f, search)
            ensures g in graphTypes[1..]
          {
            if g == graphTypes[0] {
              assert false;
            }
          }
        }
        assert forall g | g in graphTypes[1..] :: g in graphTypes;
        assert r.Ok? ==> (r.value <==> exists g, f | g in graphTypes[1..] && f in CollectFields(schema, g, node.selectionSet) ::
                                          Qualifies(schema, g, f, search));
        r
  }

  function AnyField(schema: Schema, objectType: string, fields: seq<Selection>, search: set<string>, ghost bound: nat)
    : (r: Result<bool, Error>)
    requires forall f | f in fields :: f.Field? && Size(f.selectionSet) < bound
    decreases bound, 1, |fields|
    ensures r.Ok? ==> (r.value <==> exists f | f in fields :: Qualifies(schema, objectType, f, search))
    ensures (forall f | f in fields :: ChildResolvable(schema, objectType, f)) ==> r.Ok?
  {
    if fields == [] then Ok(false)
    else
      assert fields[0] in fields;
      match ChildNode(schema, objectType, fields[0])
      case Err(e) => Err(e)
      case Ok(child) =>
        if Meets(GetGraphTypes(schema, child), search) then Ok(true)
        else
          match HasChildOfGraphType(schema, child, search)
          case Err(e) => Err(e)
          case Ok(true) => Ok(true)
          case Ok(false) =>
            assert !Qualifies(schema, objectType, fields[0], search);
            assert forall f | f in fields :: f == fields[0] || f in fields[1..];
            var r := AnyField(schema, objectType, fields[1..], search, bound);
            assert r.Ok? ==> (r.value <==> exists f | f in fields[1..] :: Qualifies(schema, objectType, f, search));
            assert (exists f | f in fields :: Qualifies(schema, objectType, f, search)) <==>
                   (exists f | f in fields[1..] :: Qualifies(schema, objectType, f, search));
            r
  }
}
