/** The v3 Atanh operation: an elementwise unary op identified by the
    constant pair ("Atanh", 3), with no attributes of its own. */
module Atanh {
  import opened OpIdentity
  import opened ElementTypes
  import opened Wrappers

  /** The element type and shape of one node output. */
  datatype OutputDesc = OutputDesc(elemType: ElementType, shape: seq<nat>)

  /** Atanh::type_info. */
  const AtanhTypeInfo := NodeTypeInfo("Atanh", 3)

  /** An Atanh node, built from the output that produces its argument. */
  datatype AtanhNode = AtanhNode(arg: OutputDesc)

  /** A visitor records the attribute names presented to it, in order. */
  datatype AttributeVisitor = AttributeVisitor(visited: seq<string>)

  datatype NodeError = InvalidArity(expected: nat, actual: nat) | TypeMismatch(elemType: ElementType)

  /** The attributes an Atanh declares: none. */
  const AtanhAttributes: seq<string> := []

  /** get_type_info(): the same static pair for every Atanh node,
      whatever its argument. */
  function GetTypeInfo(n: AtanhNode): (r: NodeTypeInfo)
    ensures r.name == "Atanh" && r.version == 3
  {
    AtanhTypeInfo
  }

  /** visit_attributes(visitor): succeeds after presenting each declared
      attribute once, in order; Atanh declares none, so the visitor is
      handed back untouched. */
  function VisitAttributes(n: AtanhNode, visitor: AttributeVisitor): (r: (bool, AttributeVisitor))
    ensures r.0
    ensures r.1.visited == visitor.visited + AtanhAttributes
  {
    (true, visitor)
  }

  /** The output of Atanh(arg): a unary elementwise op keeps its argument's
      element type and shape [d1, ...]. */
  function Output(n: AtanhNode): (r: OutputDesc)
    ensures r.shape == n.arg.shape && |r.shape| == |n.arg.shape|
    ensures r.elemType == n.arg.elemType
  {
    n.arg
  }

  /** Atanh(arg): construction runs the type inference of a unary
      elementwise arithmetic op, which rejects a boolean argument and
      otherwise gives the node the argument's element type and shape. */
  function Construct(arg: OutputDesc): (r: Result<AtanhNode, NodeError>)
    ensures r.Ok? <==> arg.elemType != Boolean
    ensures r.Err? ==> r.error == TypeMismatch(Boolean)
    ensures r.Ok? ==> GetTypeInfo(r.value) == AtanhTypeInfo && Output(r.value) == arg
  {
    if arg.elemType == Boolean then Err(TypeMismatch(Boolean)) else Ok(AtanhNode(arg))
  }

  /** The number of arguments the Atanh constructor takes. */
  const AtanhArity: nat := 1

  /** clone_with_new_inputs(new_args): fails unless exactly one argument is
      given; otherwise constructs an Atanh over that argument, which fails
      when the argument is boolean. */
  function CloneWithNewInputs(n: AtanhNode, newArgs: seq<OutputDesc>): (r: Result<AtanhNode, NodeError>)
    ensures r.Ok? <==> |newArgs| == AtanhArity && newArgs[0].elemType != Boolean
    ensures |newArgs| != AtanhArity ==> r == Err(InvalidArity(AtanhArity, |newArgs|))
    ensures |newArgs| == AtanhArity && newArgs[0].elemType == Boolean ==> r == Err(TypeMismatch(Boolean))
    ensures r.Ok? ==> GetTypeInfo(r.value) == GetTypeInfo(n) && Output(r.value) == newArgs[0]
  {
    if |newArgs| != AtanhArity then Err(InvalidArity(AtanhArity, |newArgs|))
    else Construct(newArgs[0])
  }
}
