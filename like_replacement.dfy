/** The LikeReplacement pass: every BroadcastLike becomes a plain Broadcast
    without the pseudo-dependency on its "like" argument, and every
    ScalarConstantLike becomes the Constant it stands for.  Handlers are
    found by the node's (name, version) identity. */
module LikeReplacement {
  import opened OpIdentity
  import opened Graph

  datatype Handler = BroadcastLikeHandler | ScalarConstantLikeHandler

  /** The pass's dispatcher, keyed on NodeTypeInfo. */
  const Dispatcher: map<NodeTypeInfo, Handler> :=
    map[BroadcastLikeInfo := BroadcastLikeHandler, ScalarConstantLikeInfo := ScalarConstantLikeHandler]

  predicate InRange(ops: seq<NodeId>, n: nat)
  {
    forall i :: 0 <= i < |ops| ==> ops[i] < n
  }

  /** Whether the dispatcher has a handler for node `t`'s identity. */
  predicate Dispatched(g: FunctionGraph, t: NodeId)
    requires t < |g.nodes|
  {
    TypeInfo(g.nodes[t].op) in Dispatcher
  }

  /** Because identities are unique per class, looking a node up by its
      identity finds exactly the handler written for its class. */
  lemma DispatchByIdentity(op: Op)
    requires WellFormedOp(op)
    ensures TypeInfo(op) in Dispatcher <==> op.BroadcastLike? || op.ScalarConstantLike?
    ensures op.BroadcastLike? ==> Dispatcher[TypeInfo(op)] == BroadcastLikeHandler
    ensures op.ScalarConstantLike? ==> Dispatcher[TypeInfo(op)] == ScalarConstantLikeHandler
  {
  }

  /** The node a handler builds in place of `t`: a Broadcast of input 0 with
      the same broadcast shape and axes, or the constant of a
      ScalarConstantLike (its as_constant()). */
  function Replacement(g: FunctionGraph, t: NodeId): (n: Node)
    requires ValidGraph(g) && t < |g.nodes| && Dispatched(g, t)
    ensures WellFormedNode(n)
    ensures forall k :: 0 <= k < |n.inputs| ==> n.inputs[k].node < |g.nodes| && n.inputs[k].node != t
    ensures forall k :: 0 <= k < |n.inputs| ==> n.inputs[k] in g.nodes[t].inputs
  {
    var node := g.nodes[t];
    DispatchByIdentity(node.op);
    match Dispatcher[TypeInfo(node.op)]
    case BroadcastLikeHandler =>
      Node(Broadcast(node.op.shape, node.op.axes), [node.inputs[0]], node.op.shape)
    case ScalarConstantLikeHandler =>
      Node(Constant(node.op.value), [], node.shape)
  }

  /** One iteration of run_on_function's loop, on node `t`. */
  function Step(g: FunctionGraph, t: NodeId): (r: FunctionGraph)
    requires ValidGraph(g) && t < |g.nodes|
    ensures ValidGraph(r)
    ensures |r.nodes| == |g.nodes| + (if Dispatched(g, t) then 1 else 0)
    ensures !Dispatched(g, t) ==> r == g
    ensures Dispatched(g, t) ==> Detached(r, t)
    ensures g.nodes[t].op.BroadcastLike? ==>
              r.nodes[|g.nodes|] == Node(Broadcast(g.nodes[t].op.shape, g.nodes[t].op.axes),
                                         [g.nodes[t].inputs[0]], g.nodes[t].op.shape)
    ensures g.nodes[t].op.ScalarConstantLike? ==>
              r.nodes[|g.nodes|] == Node(Constant(g.nodes[t].op.value), [], g.nodes[t].shape)
  {
    if Dispatched(g, t) then
      var n := Replacement(g, t);
      ReplacedValid(g, t, n);
      var r := Replaced(g, t, n);
      assert r.nodes[|g.nodes|] == n by {
        assert (g.nodes + [n])[|g.nodes|] == n;
        assert forall k :: 0 <= k < |n.inputs| ==> Rewire(n.inputs[k], t, |g.nodes|) == n.inputs[k];
      }
      DispatchByIdentity(g.nodes[t].op);
      r
    else
      DispatchByIdentity(g.nodes[t].op);
      g
  }

  /** Number of entries of `ops` the dispatcher has a handler for. */
  function DispatchedCount(g: FunctionGraph, ops: seq<NodeId>): nat
    requires InRange(ops, |g.nodes|)
  {
    if ops == [] then 0
    else DispatchedCount(g, ops[..|ops| - 1]) + (if Dispatched(g, ops[|ops| - 1]) then 1 else 0)
  }

  /** The graph run_on_function leaves after visiting `ops` in order: one
      replacement node per dispatched op, every node keeping its kind. */
  function Pass(g: FunctionGraph, ops: seq<NodeId>): (r: FunctionGraph)
    requires ValidGraph(g) && InRange(ops, |g.nodes|)
    ensures ValidGraph(r)
    ensures |r.nodes| == |g.nodes| + DispatchedCount(g, ops)
    ensures r.results == g.results
    ensures forall j :: 0 <= j < |g.nodes| ==> r.nodes[j].op == g.nodes[j].op && r.nodes[j].shape == g.nodes[j].shape
    decreases |ops|
  {
    if ops == [] then g
    else
      var prev := Pass(g, ops[..|ops| - 1]);
      var t := ops[|ops| - 1];
      assert Dispatched(prev, t) == Dispatched(g, t);
      Step(prev, t)
  }

  /** The pass keeps the output flag: output op i of the rewritten function
      is output op i of the original, and still reports is_output(). */
  lemma PassKeepsOutputFlag(g: FunctionGraph, ops: seq<NodeId>, i: nat)
    requires ValidGraph(g) && InRange(ops, |g.nodes|) && i < |g.results|
    ensures GetOutputOp(Pass(g, ops), i) == GetOutputOp(g, i)
    ensures GetOutputOp(Pass(g, ops), i).value < |Pass(g, ops).nodes|
    ensures IsOutput(Pass(g, ops).nodes[GetOutputOp(Pass(g, ops), i).value].op)
  {
    OutputOpsAreOutputs(Pass(g, ops), i);
  }

  /** run_on_function reports a change exactly when some op had a handler. */
  lemma {:induction false} ClobberedIffDispatched(g: FunctionGraph, ops: seq<NodeId>)
    requires InRange(ops, |g.nodes|)
    ensures DispatchedCount(g, ops) > 0 <==> exists i :: 0 <= i < |ops| && Dispatched(g, ops[i])
  {
    if ops != [] {
      var init := ops[..|ops| - 1];
      ClobberedIffDispatched(g, init);
      if exists i :: 0 <= i < |init| && Dispatched(g, init[i]) {
        var i :| 0 <= i < |init| && Dispatched(g, init[i]);
        assert ops[i] == init[i];
      }
      if exists i :: 0 <= i < |ops| && Dispatched(g, ops[i]) {
        var i :| 0 <= i < |ops| && Dispatched(g, ops[i]);
        if i < |init| {
          assert init[i] == ops[i];
        }
      }
    }
  }

  /** The pass leaves the function exactly as it was iff no op had a handler:
      ops outside the dispatcher are never touched. */
  lemma {:induction false} PassIsIdentityIffNothingDispatched(g: FunctionGraph, ops: seq<NodeId>)
    requires ValidGraph(g) && InRange(ops, |g.nodes|)
    ensures Pass(g, ops) == g <==> DispatchedCount(g, ops) == 0
  {
    if ops != [] && DispatchedCount(g, ops) == 0 {
      PassIsIdentityIffNothingDispatched(g, ops[..|ops| - 1]);
    }
  }

  /** Every visited op that had a handler ends the pass with no consumer:
      later replacements never re-attach it. */
  lemma {:induction false} PassDetachesHandled(g: FunctionGraph, ops: seq<NodeId>, i: nat)
    requires ValidGraph(g) && InRange(ops, |g.nodes|)
    requires i < |ops| && Dispatched(g, ops[i])
    ensures Detached(Pass(g, ops), ops[i])
  {
    var init := ops[..|ops| - 1];
    var prev := Pass(g, init);
    var t := ops[|ops| - 1];
    assert Pass(g, ops) == Step(prev, t);
    if i < |ops| - 1 {
      assert init[i] == ops[i];
      PassDetachesHandled(g, init, i);
      if Dispatched(prev, t) {
        var n := Replacement(prev, t);
        ReplacedKeepsDetached(prev, t, n, ops[i]);
        assert Step(prev, t) == Replaced(prev, t, n);
      }
    }
  }

  /** A later prefix of the pass never changes the kind of a node an earlier
      prefix produced. */
  lemma {:induction false} PassKeepsEarlierKinds(g: FunctionGraph, ops: seq<NodeId>, m: nat)
    requires ValidGraph(g) && InRange(ops, |g.nodes|) && m <= |ops|
    ensures |Pass(g, ops[..m]).nodes| <= |Pass(g, ops).nodes|
    ensures forall j :: 0 <= j < |Pass(g, ops[..m]).nodes| ==>
              Pass(g, ops).nodes[j].op == Pass(g, ops[..m]).nodes[j].op
    decreases |ops| - m
  {
    if m == |ops| {
      assert ops[..m] == ops;
    } else {
      var init := ops[..|ops| - 1];
      assert init[..m] == ops[..m];
      PassKeepsEarlierKinds(g, init, m);
    }
  }

  /** The node built for the i-th op sits right after the nodes built for the
      ops before it, and has the kind its handler promises: a Broadcast with
      the BroadcastLike's shape and axes reading one input, or the
      ScalarConstantLike's constant reading none. */
  lemma {:induction false} PassReplacementAt(g: FunctionGraph, ops: seq<NodeId>, i: nat)
    requires ValidGraph(g) && InRange(ops, |g.nodes|)
    requires i < |ops| && Dispatched(g, ops[i])
    ensures |g.nodes| + DispatchedCount(g, ops[..i]) < |Pass(g, ops).nodes|
    ensures var n := Pass(g, ops).nodes[|g.nodes| + DispatchedCount(g, ops[..i])];
            match g.nodes[ops[i]].op
            case BroadcastLike(shape, axes) => n.op == Broadcast(shape, axes) && |n.inputs| == 1
            case ScalarConstantLike(value) => n.op == Constant(value) && n.inputs == []
            case _ => false
  {
    var pre := Pass(g, ops[..i]);
    var t := ops[i];
    assert ops[..i + 1][..i] == ops[..i];
    assert Pass(g, ops[..i + 1]) == Step(pre, t);
    PassKeepsEarlierKinds(g, ops, i + 1);
    DispatchByIdentity(g.nodes[t].op);
    assert ValidGraph(Pass(g, ops));
  }

  /** One more op of the list is one more Step. */
  lemma PassUnfold(g: FunctionGraph, ops: seq<NodeId>, i: nat)
    requires ValidGraph(g) && InRange(ops, |g.nodes|) && i < |ops|
    ensures ops[i] < |Pass(g, ops[..i]).nodes|
    ensures Pass(g, ops[..i + 1]) == Step(Pass(g, ops[..i]), ops[i])
    ensures Dispatched(Pass(g, ops[..i]), ops[i]) == Dispatched(g, ops[i])
    ensures DispatchedCount(g, ops[..i + 1]) ==
            DispatchedCount(g, ops[..i]) + (if Dispatched(g, ops[i]) then 1 else 0)
  {
    assert ops[..i + 1][..i] == ops[..i];
  }

  /** replace_broadcast_like: swap the BroadcastLike for a Broadcast of its
      input 0; always reports a change. */
  method ReplaceBroadcastLike(f: Function, node: NodeId) returns (changed: bool)
    requires ValidGraph(f.State()) && node < |f.nodes| && f.nodes[node].op.BroadcastLike?
    modifies f
    ensures changed
    ensures f.State() == Step(old(f.State()), node)
  {
    var like := f.nodes[node];
    f.ReplaceNode(node, Node(Broadcast(like.op.shape, like.op.axes), [like.inputs[0]], like.op.shape));
    changed := true;
  }

  /** replace_scalar_constant_like: swap the ScalarConstantLike for its
      constant; always reports a change. */
  method ReplaceScalarConstantLike(f: Function, node: NodeId) returns (changed: bool)
    requires ValidGraph(f.State()) && node < |f.nodes| && f.nodes[node].op.ScalarConstantLike?
    modifies f
    ensures changed
    ensures f.State() == Step(old(f.State()), node)
  {
    var like := f.nodes[node];
    f.ReplaceNode(node, Node(Constant(like.op.value), [], like.shape));
    changed := true;
  }

  /** LikeReplacement::run_on_function over the op list `ops` (get_ops()).
      Every op with a handler is rewritten, even once `clobbered` is already
      set, because the handler runs before the `||`. */
  method RunOnFunction(f: Function, ops: seq<NodeId>) returns (clobbered: bool)
    requires ValidGraph(f.State()) && InRange(ops, |f.nodes|)
    modifies f
    ensures f.State() == Pass(old(f.State()), ops)
    ensures clobbered <==> exists i :: 0 <= i < |ops| && Dispatched(old(f.State()), ops[i])
  {
    ghost var g := f.State();
    clobbered := false;
    for i := 0 to |ops|
      invariant f.State() == Pass(g, ops[..i])
      invariant clobbered == (DispatchedCount(g, ops[..i]) > 0)
    {
      PassUnfold(g, ops, i);
      var n := ops[i];
      var info := TypeInfo(f.nodes[n].op);
      DispatchByIdentity(f.nodes[n].op);
      if info in Dispatcher {
        var changed;
        match Dispatcher[info] {
          case BroadcastLikeHandler =>
            changed := ReplaceBroadcastLike(f, n);
          case ScalarConstantLikeHandler =>
            changed := ReplaceScalarConstantLike(f, n);
        }
        clobbered := changed || clobbered;
      }
    }
    assert ops[..|ops|] == ops;
    ClobberedIffDispatched(g, ops);
  }
}
