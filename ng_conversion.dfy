/** When the conversion of a compiled kernel into the nGraph dialect
    succeeds, stated on the kernel itself: every node is supported and
    implemented, reads only tensors bound before it, and defines fresh
    tensors of supported types; every kernel output is defined.  Also what
    the created operations read, and how an unsupported node stops the
    conversion. */
module NgConversion {
  import opened Wrappers
  import opened OpIdentity
  import opened NgDialectBuilder

  /** The tensors the nodes define, in order. */
  function NodeOutputs(nodes: seq<NgNode>): set<TensorId>
  {
    if nodes == [] then {} else NodeOutputs(nodes[..|nodes| - 1]) + Ids(nodes[|nodes| - 1].outputs)
  }

  /** How many of the node's inputs its lowering reads: the first `inNum`
      for a generic lowering, all of them for an index reduction. */
  function ReadCount(node: NgNode, lowering: Lowering): (c: nat)
    ensures c <= |node.inputs|
    ensures lowering.IndexReductionLowering? ==> c == |node.inputs|
  {
    match lowering
    case GenericLowering(_, inNum) => ArgCount(inNum, |node.inputs|)
    case IndexReductionLowering(_) => |node.inputs|
    case Unimplemented => 0
  }

  /** Node `node` can be lowered once the tensors in `bound` are bound: the
      dispatcher has an implemented lowering for it, the inputs that
      lowering reads are bound, and its outputs have supported types and
      name distinct tensors not bound yet. */
  predicate NodeReady(bound: set<TensorId>, node: NgNode, dispatcher: map<NodeTypeInfo, Lowering>)
  {
    node.info in dispatcher && !dispatcher[node.info].Unimplemented? &&
    (forall k :: 0 <= k < ReadCount(node, dispatcher[node.info]) ==> node.inputs[k].id in bound) &&
    (forall k :: 0 <= k < |node.outputs| ==> TensorType(node.outputs[k]).Ok?) &&
    FreshIds(bound, node.outputs)
  }

  /** Every node is ready given the tensors bound initially and those the
      nodes before it define. */
  predicate Convertible(initial: set<TensorId>, nodes: seq<NgNode>, dispatcher: map<NodeTypeInfo, Lowering>)
  {
    forall k :: 0 <= k < |nodes| ==> NodeReady(initial + NodeOutputs(nodes[..k]), nodes[k], dispatcher)
  }

  /** The nodes are convertible exactly when all but the last are and the
      last is ready after them. */
  lemma ConvertibleSnoc(initial: set<TensorId>, nodes: seq<NgNode>, dispatcher: map<NodeTypeInfo, Lowering>)
    requires |nodes| > 0
    ensures Convertible(initial, nodes, dispatcher) <==>
              Convertible(initial, nodes[..|nodes| - 1], dispatcher) &&
              NodeReady(initial + NodeOutputs(nodes[..|nodes| - 1]), nodes[|nodes| - 1], dispatcher)
  {
    var init, last := nodes[..|nodes| - 1], nodes[|nodes| - 1];
    if Convertible(initial, nodes, dispatcher) {
      forall k | 0 <= k < |init|
        ensures NodeReady(initial + NodeOutputs(init[..k]), init[k], dispatcher)
      {
        assert nodes[..k] == init[..k] && nodes[k] == init[k];
        assert NodeReady(initial + NodeOutputs(nodes[..k]), nodes[k], dispatcher);
      }
      assert nodes[..|init|] == init;
      assert NodeReady(initial + NodeOutputs(nodes[..|init|]), nodes[|init|], dispatcher);
    }
    if Convertible(initial, init, dispatcher) && NodeReady(initial + NodeOutputs(init), last, dispatcher) {
      forall k | 0 <= k < |nodes|
        ensures NodeReady(initial + NodeOutputs(nodes[..k]), nodes[k], dispatcher)
      {
        if k < |init| {
          assert nodes[..k] == init[..k] && nodes[k] == init[k];
          assert NodeReady(initial + NodeOutputs(init[..k]), init[k], dispatcher);
        } else {
          assert nodes[..k] == init;
        }
      }
    }
  }

  /** A lowering succeeds exactly when it is implemented, the inputs it
      reads are bound and the node's output types are supported. */
  lemma LowerOpOk(env: map<TensorId, MlirValue>, node: NgNode, lowering: Lowering)
    ensures LowerOp(env, node, lowering).Ok? <==>
              !lowering.Unimplemented? &&
              (forall k :: 0 <= k < ReadCount(node, lowering) ==> node.inputs[k].id in env) &&
              (forall k :: 0 <= k < |node.outputs| ==> TensorType(node.outputs[k]).Ok?)
  {
  }

  /** One node lowers and binds exactly when it is ready, and then binds
      its outputs on top of the map it started from. */
  lemma NodeStepSpec(s: BuildState, node: NgNode, dispatcher: map<NodeTypeInfo, Lowering>)
    ensures NodeStep(s, node, dispatcher).Ok? <==> NodeReady(s.env.Keys, node, dispatcher)
    ensures NodeStep(s, node, dispatcher).Ok? ==> NodeStep(s, node, dispatcher).value.env.Keys == s.env.Keys + Ids(node.outputs)
  {
    BindOutputsOk(s.env, node.outputs, |s.ops|);
    if node.info in dispatcher {
      LowerOpOk(s.env, node, dispatcher[node.info]);
    }
  }

  /** The node loop succeeds exactly when the nodes are convertible from the
      initially bound tensors, and then binds those and the nodes' outputs. */
  lemma {:induction false} BuildNodesIff(s0: BuildState, nodes: seq<NgNode>, dispatcher: map<NodeTypeInfo, Lowering>)
    ensures BuildNodes(s0, nodes, dispatcher).Ok? <==> Convertible(s0.env.Keys, nodes, dispatcher)
    ensures BuildNodes(s0, nodes, dispatcher).Ok? ==>
              BuildNodes(s0, nodes, dispatcher).value.env.Keys == s0.env.Keys + NodeOutputs(nodes)
  {
    if nodes != [] {
      var init, last := nodes[..|nodes| - 1], nodes[|nodes| - 1];
      BuildNodesIff(s0, init, dispatcher);
      ConvertibleSnoc(s0.env.Keys, nodes, dispatcher);
      if BuildNodes(s0, init, dispatcher).Ok? {
        NodeStepSpec(BuildNodes(s0, init, dispatcher).value, last, dispatcher);
      }
    }
  }

  /** buildNgDialect succeeds exactly when the nodes are convertible and
      every output is bound initially or defined by a node. */
  lemma BuildIff(s0: BuildState, nodes: seq<NgNode>, outs: seq<TensorDesc>, dispatcher: map<NodeTypeInfo, Lowering>)
    ensures Build(s0, nodes, outs, dispatcher).Ok? <==>
              Convertible(s0.env.Keys, nodes, dispatcher) &&
              forall k :: 0 <= k < |outs| ==> outs[k].id in s0.env.Keys + NodeOutputs(nodes)
  {
    BuildNodesIff(s0, nodes, dispatcher);
  }

  /** runOnOperation succeeds exactly when the kernel has inputs and
      outputs of supported types, its nodes are convertible from the
      parameters' tensors, and every kernel output is a parameter's tensor
      or a node's output. */
  lemma ConversionSucceedsIff(kernel: CompiledKernel, dispatcher: map<NodeTypeInfo, Lowering>)
    requires HasTensors(kernel.inputMap)
    ensures Conversion(kernel, dispatcher).Ok? <==>
              |kernel.inputs| > 0 && |kernel.outputs| > 0 &&
              (forall k :: 0 <= k < |kernel.inputs| ==> TensorType(kernel.inputs[k].tensor).Ok?) &&
              (forall k :: 0 <= k < |kernel.outputs| ==> TensorType(kernel.outputs[k]).Ok?) &&
              Convertible(ParamTensors(kernel.inputMap), kernel.nodeList, dispatcher) &&
              (forall k :: 0 <= k < |kernel.outputs| ==>
                 kernel.outputs[k].id in ParamTensors(kernel.inputMap) + NodeOutputs(kernel.nodeList))
  {
    ParamBindingsKeys(kernel.inputMap);
    BuildIff(BuildState(ParamBindings(kernel.inputMap), []), kernel.nodeList, kernel.outputs, dispatcher);
  }

  /** When the nodes before node k convert and node k's identity is not in
      the dispatcher, runOnOperation raises unsupported_op for node k. */
  lemma ConversionStopsAtUnsupported(kernel: CompiledKernel, dispatcher: map<NodeTypeInfo, Lowering>, k: nat)
    requires HasTensors(kernel.inputMap) && k < |kernel.nodeList|
    requires |kernel.inputs| > 0 && |kernel.outputs| > 0
    requires forall j :: 0 <= j < |kernel.inputs| ==> TensorType(kernel.inputs[j].tensor).Ok?
    requires forall j :: 0 <= j < |kernel.outputs| ==> TensorType(kernel.outputs[j]).Ok?
    requires Convertible(ParamTensors(kernel.inputMap), kernel.nodeList[..k], dispatcher)
    requires kernel.nodeList[k].info !in dispatcher
    ensures Conversion(kernel, dispatcher) == Err(UnsupportedOp(kernel.nodeList[k].info))
  {
    var s0 := BuildState(ParamBindings(kernel.inputMap), []);
    ParamBindingsKeys(kernel.inputMap);
    BuildNodesIff(s0, kernel.nodeList[..k], dispatcher);
    BuildNodesStep(s0, kernel.nodeList, dispatcher, k);
    BuildNodesSticky(s0, kernel.nodeList, dispatcher, k + 1);
  }

  /** A lowered operation reads the values bound to the inputs its lowering
      reads, in order, and has one result per node output, of that
      output's type. */
  lemma LowerOpShape(env: map<TensorId, MlirValue>, node: NgNode, lowering: Lowering)
    requires LowerOp(env, node, lowering).Ok?
    ensures var op := LowerOp(env, node, lowering).value;
            |op.operands| == ReadCount(node, lowering) &&
            (forall j :: 0 <= j < |op.operands| ==> node.inputs[j].id in env && op.operands[j] == env[node.inputs[j].id]) &&
            |op.resultTypes| == |node.outputs| &&
            (forall j :: 0 <= j < |node.outputs| ==> op.resultTypes[j] == TensorType(node.outputs[j]).value)
  {
  }

  /** The body the node loop builds extends the one each of its prefixes
      builds. */
  lemma {:induction false} BuildNodesPrefix(s0: BuildState, nodes: seq<NgNode>, dispatcher: map<NodeTypeInfo, Lowering>, j: nat)
    requires BuildNodes(s0, nodes, dispatcher).Ok? && j <= |nodes|
    ensures BuildNodes(s0, nodes[..j], dispatcher).Ok?
    ensures |BuildNodes(s0, nodes[..j], dispatcher).value.ops| <= |BuildNodes(s0, nodes, dispatcher).value.ops|
    ensures BuildNodes(s0, nodes, dispatcher).value.ops[..|BuildNodes(s0, nodes[..j], dispatcher).value.ops|] ==
              BuildNodes(s0, nodes[..j], dispatcher).value.ops
  {
    if j == |nodes| {
      assert nodes[..j] == nodes;
    } else {
      var init := nodes[..|nodes| - 1];
      assert init[..j] == nodes[..j];
      BuildNodesPrefix(s0, init, dispatcher, j);
      var a, b := BuildNodes(s0, nodes[..j], dispatcher).value.ops, BuildNodes(s0, init, dispatcher).value.ops;
      var c := BuildNodes(s0, nodes, dispatcher).value.ops;
      assert c[..|b|] == b;
      assert c[..|a|] == b[..|a|];
    }
  }

  /** Operation k of the built body is node k's lowering over the value map
      the nodes before it leave. */
  lemma BuildNodesOpAt(s0: BuildState, nodes: seq<NgNode>, dispatcher: map<NodeTypeInfo, Lowering>, k: nat)
    requires BuildNodes(s0, nodes, dispatcher).Ok? && k < |nodes|
    ensures BuildNodes(s0, nodes[..k], dispatcher).Ok? && nodes[k].info in dispatcher
    ensures LowerOp(BuildNodes(s0, nodes[..k], dispatcher).value.env, nodes[k], dispatcher[nodes[k].info]).Ok?
    ensures |BuildNodes(s0, nodes, dispatcher).value.ops| == |s0.ops| + |nodes|
    ensures BuildNodes(s0, nodes, dispatcher).value.ops[|s0.ops| + k] ==
              LowerOp(BuildNodes(s0, nodes[..k], dispatcher).value.env, nodes[k], dispatcher[nodes[k].info]).value
  {
    BuildNodesShape(s0, nodes, dispatcher);
    BuildNodesPrefix(s0, nodes, dispatcher, k + 1);
    BuildNodesPrefix(s0, nodes, dispatcher, k);
    BuildNodesStep(s0, nodes, dispatcher, k);
    BuildNodesShape(s0, nodes[..k], dispatcher);
    var c := BuildNodes(s0, nodes, dispatcher).value.ops;
    var b := BuildNodes(s0, nodes[..k + 1], dispatcher).value.ops;
    assert c[|s0.ops| + k] == c[..|b|][|s0.ops| + k];
  }

  /** Operation k of the built body reads the values bound to node k's
      inputs when the nodes before it are done, and has one result per
      output of node k, of that output's type. */
  lemma BuildNodesOps(s0: BuildState, nodes: seq<NgNode>, dispatcher: map<NodeTypeInfo, Lowering>, k: nat)
    requires BuildNodes(s0, nodes, dispatcher).Ok? && k < |nodes|
    ensures BuildNodes(s0, nodes[..k], dispatcher).Ok? && nodes[k].info in dispatcher
    ensures |BuildNodes(s0, nodes, dispatcher).value.ops| == |s0.ops| + |nodes|
    ensures forall j :: 0 <= j < |nodes[k].outputs| ==> TensorType(nodes[k].outputs[j]).Ok?
    ensures var env := BuildNodes(s0, nodes[..k], dispatcher).value.env;
            var op := BuildNodes(s0, nodes, dispatcher).value.ops[|s0.ops| + k];
            |op.operands| == ReadCount(nodes[k], dispatcher[nodes[k].info]) &&
            (forall j :: 0 <= j < |op.operands| ==> nodes[k].inputs[j].id in env && op.operands[j] == env[nodes[k].inputs[j].id]) &&
            |op.resultTypes| == |nodes[k].outputs| &&
            (forall j :: 0 <= j < |nodes[k].outputs| ==> op.resultTypes[j] == TensorType(nodes[k].outputs[j]).value)
  {
    BuildNodesOpAt(s0, nodes, dispatcher, k);
    LowerOpShape(BuildNodes(s0, nodes[..k], dispatcher).value.env, nodes[k], dispatcher[nodes[k].info]);
  }

  /** A built body ends in a return of the kernel outputs' values. */
  lemma BuildReturns(s0: BuildState, nodes: seq<NgNode>, outs: seq<TensorDesc>, dispatcher: map<NodeTypeInfo, Lowering>)
    requires Build(s0, nodes, outs, dispatcher).Ok?
    ensures var b := Build(s0, nodes, outs, dispatcher).value;
            |b.ops| > 0 && b.ops[|b.ops| - 1].name == ReturnOpName &&
            |b.ops[|b.ops| - 1].operands| == |outs| &&
            forall k :: 0 <= k < |outs| ==> outs[k].id in b.env && b.ops[|b.ops| - 1].operands[k] == b.env[outs[k].id]
  {
  }
}
