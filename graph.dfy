/** An nGraph Function as an arena of nodes.  Node ids are arena positions;
    an input names the producing node and which of its outputs it reads
    (an Output<Node>).  Graph outputs are Result nodes, as in nGraph. */
module Graph {
  import opened OpIdentity
  import opened Wrappers

  type NodeId = nat
  type Shape = seq<nat>

  /** Output `index` of node `node`. */
  datatype Source = Source(node: NodeId, index: nat)

  /** The operation kinds this model distinguishes; every other kind is
      `Other`, carrying only its identity. */
  datatype Op =
    | Parameter
    | Result
    | Broadcast(shape: Shape, axes: set<nat>)
    | BroadcastLike(shape: Shape, axes: set<nat>)
    | Constant(value: int)
    | ScalarConstantLike(value: int)
    | Other(info: NodeTypeInfo)

  const ParameterInfo := NodeTypeInfo("Parameter", 0)
  const ResultInfo := NodeTypeInfo("Result", 0)
  const BroadcastInfo := NodeTypeInfo("Broadcast", 0)
  const BroadcastLikeInfo := NodeTypeInfo("BroadcastLike", 0)
  const ConstantInfo := NodeTypeInfo("Constant", 0)
  const ScalarConstantLikeInfo := NodeTypeInfo("ScalarConstantLike", 0)

  /** get_type_info(): the static identity of the node's class. */
  function TypeInfo(op: Op): NodeTypeInfo
  {
    match op
    case Parameter => ParameterInfo
    case Result => ResultInfo
    case Broadcast(_, _) => BroadcastInfo
    case BroadcastLike(_, _) => BroadcastLikeInfo
    case Constant(_) => ConstantInfo
    case ScalarConstantLike(_) => ScalarConstantLikeInfo
    case Other(info) => info
  }

  predicate IsBuiltinInfo(info: NodeTypeInfo)
  {
    info == ParameterInfo || info == ResultInfo || info == BroadcastInfo ||
    info == BroadcastLikeInfo || info == ConstantInfo || info == ScalarConstantLikeInfo
  }

  /** A well-formed op has a built-in identity exactly when it is of a
      built-in class, and each built-in identity names one class only. */
  lemma TypeInfoIdentifiesClass(op: Op)
    ensures op.Other? ==> TypeInfo(op) == op.info
    ensures WellFormedOp(op) ==> (IsBuiltinInfo(TypeInfo(op)) <==> !op.Other?)
    ensures WellFormedOp(op) ==> (TypeInfo(op) == ResultInfo <==> op.Result?)
    ensures WellFormedOp(op) ==> (TypeInfo(op) == BroadcastLikeInfo <==> op.BroadcastLike?)
    ensures WellFormedOp(op) ==> (TypeInfo(op) == ScalarConstantLikeInfo <==> op.ScalarConstantLike?)
  {
  }

  /** An identity names one class only: no other kind reuses a built-in identity. */
  predicate WellFormedOp(op: Op)
  {
    op.Other? ==> !IsBuiltinInfo(op.info)
  }

  datatype Node = Node(op: Op, inputs: seq<Source>, shape: Shape)

  /** Each class's constructor fixes its number of inputs. */
  predicate WellFormedNode(n: Node)
  {
    WellFormedOp(n.op) &&
    match n.op
    case Parameter => |n.inputs| == 0
    case Result => |n.inputs| == 1
    case Broadcast(_, _) => |n.inputs| == 1
    case BroadcastLike(_, _) => |n.inputs| == 2
    case Constant(_) => |n.inputs| == 0
    case ScalarConstantLike(_) => |n.inputs| == 1
    case Other(_) => true
  }

  datatype FunctionGraph = FunctionGraph(nodes: seq<Node>, results: seq<NodeId>)

  /** Every input names a node of the arena other than its consumer, and
      every graph output is a Result node. */
  predicate ValidGraph(g: FunctionGraph)
  {
    && (forall j :: 0 <= j < |g.nodes| ==> WellFormedNode(g.nodes[j]))
    && (forall j, k :: 0 <= j < |g.nodes| && 0 <= k < |g.nodes[j].inputs| ==>
          g.nodes[j].inputs[k].node < |g.nodes| && g.nodes[j].inputs[k].node != j)
    && (forall k :: 0 <= k < |g.results| ==>
          g.results[k] < |g.nodes| && g.nodes[g.results[k]].op.Result?)
  }

  /** No node of the arena reads an output of `t`. */
  predicate Detached(g: FunctionGraph, t: NodeId)
  {
    forall j, k :: 0 <= j < |g.nodes| && 0 <= k < |g.nodes[j].inputs| ==> g.nodes[j].inputs[k].node != t
  }

  function Rewire(s: Source, target: NodeId, replacement: NodeId): Source
  {
    if s.node == target then Source(replacement, s.index) else s
  }

  function RewireInputs(n: Node, target: NodeId, replacement: NodeId): (r: Node)
    ensures r.op == n.op && r.shape == n.shape && |r.inputs| == |n.inputs|
    ensures forall k :: 0 <= k < |n.inputs| ==> r.inputs[k] == Rewire(n.inputs[k], target, replacement)
  {
    n.(inputs := seq(|n.inputs|, k requires 0 <= k < |n.inputs| => Rewire(n.inputs[k], target, replacement)))
  }

  /** replace_node(target, replacement): the replacement joins the arena and
      every input that read output i of `target` now reads output i of the
      replacement; the old node stays in the arena, with no consumers. */
  function Replaced(g: FunctionGraph, target: NodeId, replacement: Node): (r: FunctionGraph)
    requires target < |g.nodes|
    ensures |r.nodes| == |g.nodes| + 1 && r.results == g.results
    ensures forall j :: 0 <= j < |g.nodes| ==>
              r.nodes[j].op == g.nodes[j].op && r.nodes[j].shape == g.nodes[j].shape &&
              |r.nodes[j].inputs| == |g.nodes[j].inputs|
    ensures r.nodes[|g.nodes|].op == replacement.op && r.nodes[|g.nodes|].shape == replacement.shape
    ensures forall j, k :: 0 <= j < |g.nodes| && 0 <= k < |g.nodes[j].inputs| ==>
              r.nodes[j].inputs[k] ==
                (if g.nodes[j].inputs[k].node == target then Source(|g.nodes|, g.nodes[j].inputs[k].index)
                 else g.nodes[j].inputs[k])
    ensures Detached(r, target)
  {
    var all := g.nodes + [replacement];
    FunctionGraph(seq(|all|, j requires 0 <= j < |all| => RewireInputs(all[j], target, |g.nodes|)), g.results)
  }

  /** A replacement that reads neither `target` nor itself and respects its
      class's arity keeps the graph valid. */
  lemma ReplacedValid(g: FunctionGraph, target: NodeId, replacement: Node)
    requires ValidGraph(g) && target < |g.nodes| && WellFormedNode(replacement)
    requires forall k :: 0 <= k < |replacement.inputs| ==>
               replacement.inputs[k].node < |g.nodes| && replacement.inputs[k].node != target
    ensures ValidGraph(Replaced(g, target, replacement))
  {
    var r := Replaced(g, target, replacement);
    var n := |g.nodes|;
    assert r.nodes[n].inputs == replacement.inputs by {
      forall k | 0 <= k < |replacement.inputs|
        ensures r.nodes[n].inputs[k] == replacement.inputs[k]
      {
        assert (g.nodes + [replacement])[n] == replacement;
      }
    }
    forall j | 0 <= j < |r.nodes|
      ensures WellFormedNode(r.nodes[j])
    {
      if j == n {
        assert r.nodes[j] == replacement;
      } else {
        assert WellFormedNode(g.nodes[j]);
      }
    }
  }

  /** Replacing `target` keeps every node that had no consumers without any,
      as long as the replacement does not read it. */
  lemma ReplacedKeepsDetached(g: FunctionGraph, target: NodeId, replacement: Node, t: NodeId)
    requires target < |g.nodes| && t < |g.nodes| && Detached(g, t)
    requires forall k :: 0 <= k < |replacement.inputs| ==> replacement.inputs[k].node != t
    ensures Detached(Replaced(g, target, replacement), t)
  {
    var r := Replaced(g, target, replacement);
    var n := |g.nodes|;
    forall j, k | 0 <= j < |r.nodes| && 0 <= k < |r.nodes[j].inputs|
      ensures r.nodes[j].inputs[k].node != t
    {
      if j == n {
        assert (g.nodes + [replacement])[n] == replacement;
        assert r.nodes[j].inputs[k] == Rewire(replacement.inputs[k], target, n);
      }
    }
  }

  datatype GraphError = IndexOutOfRange(index: nat)

  /** Function::get_output_op(i): the i-th Result node. */
  function GetOutputOp(g: FunctionGraph, i: nat): (r: Result<NodeId, GraphError>)
    ensures r.Ok? <==> i < |g.results|
    ensures r.Ok? ==> r.value == g.results[i]
  {
    if i < |g.results| then Ok(g.results[i]) else Err(IndexOutOfRange(i))
  }

  /** Node::is_output(): only Result nodes are graph outputs, so for a
      well-formed op it holds exactly when the identity is Result's. */
  predicate IsOutput(op: Op): (b: bool)
    ensures WellFormedOp(op) ==> (b <==> TypeInfo(op) == ResultInfo)
  {
    TypeInfoIdentifiesClass(op);
    op.Result?
  }

  /** In a valid graph every output op reports is_output(). */
  lemma OutputOpsAreOutputs(g: FunctionGraph, i: nat)
    requires ValidGraph(g) && i < |g.results|
    ensures GetOutputOp(g, i).Ok? && GetOutputOp(g, i).value < |g.nodes|
    ensures IsOutput(g.nodes[GetOutputOp(g, i).value].op)
  {
  }

  /** A Function object whose node list the passes rewrite in place. */
  class Function {
    var nodes: seq<Node>
    var results: seq<NodeId>

    function State(): FunctionGraph
      reads this
    {
      FunctionGraph(nodes, results)
    }

    constructor (g: FunctionGraph)
      ensures State() == g
    {
      nodes := g.nodes;
      results := g.results;
    }

    /** replace_node: add the replacement, then move every consumer of
        `target` onto it, one node at a time. */
    method ReplaceNode(target: NodeId, replacement: Node)
      requires target < |nodes|
      modifies this
      ensures State() == Replaced(old(State()), target, replacement)
    {
      ghost var g := State();
      var added := |nodes|;
      nodes := nodes + [replacement];
      for j := 0 to |nodes|
        invariant |nodes| == added + 1 && results == g.results
        invariant forall i :: 0 <= i < j ==> nodes[i] == RewireInputs((g.nodes + [replacement])[i], target, added)
        invariant forall i :: j <= i < |nodes| ==> nodes[i] == (g.nodes + [replacement])[i]
      {
        nodes := nodes[j := RewireInputs(nodes[j], target, added)];
      }
      assert nodes == Replaced(g, target, replacement).nodes;
    }
  }
}
