/** The conversion of a CompiledKernel's nGraph sub-graph into the nGraph
    MLIR dialect.  MLIR is reduced to what the conversion relies on: types
    and attributes are plain values, an SSA value is either an entry-block
    argument or result `i` of the `o`-th created operation, and the function
    body is the list of operations the builder created, in order. */
module NgDialectBuilder {
  import opened OpIdentity
  import opened ElementTypes
  import opened Wrappers

  type TensorId = nat

  /** A size_t. */
  type Dim = d: nat | d < 0x1_0000_0000_0000_0000

  /** A descriptor::Tensor; `id` is its address, the key of the value map. */
  datatype TensorDesc = TensorDesc(id: TensorId, elemType: ElementType, shape: seq<Dim>)

  /** An nGraph node as the conversion sees it: its identity, the tensors it
      reads and writes, and (for index reductions) its reduction axis. */
  datatype NgNode = NgNode(id: nat, info: NodeTypeInfo, inputs: seq<TensorDesc>, outputs: seq<TensorDesc>,
                           reductionAxis: Dim)

  /** One input of the kernel: its tensor and the node that produces it. */
  datatype KernelInput = KernelInput(tensor: TensorDesc, producer: nat)

  /** An entry of the kernel's input map: a Parameter of the sub-graph and
      the function argument it stands for. */
  datatype ParamBinding = ParamBinding(param: NgNode, argId: nat)

  datatype CompiledKernel = CompiledKernel(
    inputs: seq<KernelInput>,
    outputs: seq<TensorDesc>,
    inputMap: seq<ParamBinding>,
    nodeList: seq<NgNode>)

  datatype Signedness = Signed | Unsigned
  datatype FloatKind = BF16Float | F16Float | F32Float | F64Float
  datatype MlirElemType = NGFloatType(kind: FloatKind) | NGIntegerType(width: nat, signedness: Signedness)
  datatype MlirType = NGTensorType(elemType: MlirElemType, shape: seq<int>)
  datatype MlirValue = BlockArgument(argNo: nat) | OpResult(op: nat, resultNo: nat)
  datatype Attr = I64ArrayAttr(values: seq<int>)
  datatype MlirOp = MlirOp(name: string, resultTypes: seq<MlirType>, operands: seq<MlirValue>, attrs: map<string, Attr>)
  datatype FuncOp = FuncOp(name: string, argTypes: seq<MlirType>, resultTypes: seq<MlirType>, body: seq<MlirOp>)

  /** What the dispatcher holds for a supported nGraph op: a generic
      lowering to the named dialect op reading the first `inNum` inputs
      (-1: all of them), an index reduction, or the primary createOp
      template, which throws. */
  datatype Lowering = GenericLowering(opName: string, inNum: int) | IndexReductionLowering(opName: string) | Unimplemented

  datatype Error = CheckFailed(message: string) | UnsupportedOp(info: NodeTypeInfo) | UnimplementedOp(info: NodeTypeInfo) | OutOfRange

  const UnsupportedTypeMessage := "MLIR: Unsupported NGraph types"
  const AlreadyDefinedMessage := "tensor value already defined"
  const UndefinedMessage := "Undefined tensor"
  const NoInputsMessage := "Cannot have empty inputs list"
  const NoOutputsMessage := "Cannot have empty outputs list"
  const NotInInputMapMessage := "Parameter not in CK input map"
  const ReturnOpName := "ng.return"

  /** getMlirType(element::Type): floats to float types, integers to integer
      types of their own bit width and signedness, boolean to an unsigned
      8-bit integer; undefined, dynamic and u1 fail the check. */
  function MlirElementType(t: ElementType): (r: Result<MlirElemType, Error>)
    ensures r.Err? <==> t == Undefined || t == Dynamic || t == U1
    ensures r.Err? ==> r.error == CheckFailed(UnsupportedTypeMessage)
    ensures r.Ok? ==> (r.value.NGFloatType? <==> t in {Bf16, F16, F32, F64})
    ensures r.Ok? && r.value.NGIntegerType? ==> r.value.width == 8 * ByteWidth(t)
    ensures r.Ok? && r.value.NGIntegerType? ==>
              (r.value.signedness == Signed <==> t in {I8, I16, I32, I64})
  {
    match t
    case Undefined => Err(CheckFailed(UnsupportedTypeMessage))
    case Dynamic => Err(CheckFailed(UnsupportedTypeMessage))
    case U1 => Err(CheckFailed(UnsupportedTypeMessage))
    case Bf16 => Ok(NGFloatType(BF16Float))
    case F16 => Ok(NGFloatType(F16Float))
    case F32 => Ok(NGFloatType(F32Float))
    case F64 => Ok(NGFloatType(F64Float))
    case I8 => Ok(NGIntegerType(8, Signed))
    case U8 => Ok(NGIntegerType(8, Unsigned))
    case Boolean => Ok(NGIntegerType(8, Unsigned))
    case I16 => Ok(NGIntegerType(16, Signed))
    case U16 => Ok(NGIntegerType(16, Unsigned))
    case I32 => Ok(NGIntegerType(32, Signed))
    case U32 => Ok(NGIntegerType(32, Unsigned))
    case I64 => Ok(NGIntegerType(64, Signed))
    case U64 => Ok(NGIntegerType(64, Unsigned))
  }

  /** Two supported element types share a dialect type only when they are
      u8 and boolean. */
  lemma MlirElementTypeCollisions(a: ElementType, b: ElementType)
    requires MlirElementType(a).Ok? && MlirElementType(b).Ok?
    ensures MlirElementType(a) == MlirElementType(b) <==> a == b || (a in {U8, Boolean} && b in {U8, Boolean})
  {
  }

  /** The int64_t a size_t converts to: values of 2^63 and above wrap. */
  function ToInt64(d: Dim): (r: int)
    ensures -0x8000_0000_0000_0000 <= r < 0x8000_0000_0000_0000
    ensures (r - d) % 0x1_0000_0000_0000_0000 == 0
  {
    if d < 0x8000_0000_0000_0000 then d else d - 0x1_0000_0000_0000_0000
  }

  /** The size_t an int64_t converts back to. */
  function FromInt64(v: int): Dim
    requires -0x8000_0000_0000_0000 <= v < 0x8000_0000_0000_0000
  {
    if v < 0 then v + 0x1_0000_0000_0000_0000 else v
  }

  /** The dimension list getMlirShape produces. */
  function MlirShape(s: seq<Dim>): (r: seq<int>)
    ensures |r| == |s|
  {
    seq(|s|, k requires 0 <= k < |s| => ToInt64(s[k]))
  }

  /** No dimension is lost in the conversion: converting each entry back
      gives the nGraph shape again, and dimensions below 2^63 pass
      unchanged. */
  lemma MlirShapeRoundTrip(s: seq<Dim>)
    ensures |MlirShape(s)| == |s|
    ensures forall k :: 0 <= k < |s| ==> FromInt64(MlirShape(s)[k]) == s[k]
    ensures (forall k :: 0 <= k < |s| ==> s[k] < 0x8000_0000_0000_0000) ==> MlirShape(s) == s
  {
  }

  /** getMlirType(tensor): the tensor type over the converted element type
      and shape. */
  function TensorType(t: TensorDesc): (r: Result<MlirType, Error>)
    ensures r.Ok? <==> MlirElementType(t.elemType).Ok?
    ensures r.Ok? ==> r.value == NGTensorType(MlirElementType(t.elemType).value, MlirShape(t.shape))
  {
    match MlirElementType(t.elemType)
    case Ok(e) => Ok(NGTensorType(e, MlirShape(t.shape)))
    case Err(e) => Err(e)
  }

  /** getMlirShape: append the dimensions one by one. */
  method GetMlirShape(ngShape: seq<Dim>) returns (mlirShape: seq<int>)
    ensures |mlirShape| == |ngShape|
    ensures forall k :: 0 <= k < |ngShape| ==> mlirShape[k] == ToInt64(ngShape[k])
  {
    mlirShape := [];
    for i := 0 to |ngShape|
      invariant |mlirShape| == i
      invariant forall k :: 0 <= k < i ==> mlirShape[k] == ToInt64(ngShape[k])
    {
      mlirShape := mlirShape + [ToInt64(ngShape[i])];
    }
  }

  /** getShapeAsAttr: the converted shape as an i64 array attribute. */
  method GetShapeAsAttr(ngShape: seq<Dim>) returns (attr: Attr)
    ensures attr.I64ArrayAttr? && attr.values == MlirShape(ngShape)
  {
    var mlirShape := GetMlirShape(ngShape);
    attr := I64ArrayAttr(mlirShape);
  }

  /** The type-list loops of runOnOperation and createGenericOp: one type per
      tensor, in order; the first unsupported element type fails the check. */
  method CollectTypes(ts: seq<TensorDesc>) returns (r: Result<seq<MlirType>, Error>)
    ensures r.Ok? <==> forall k :: 0 <= k < |ts| ==> TensorType(ts[k]).Ok?
    ensures r.Ok? ==> |r.value| == |ts| && forall k :: 0 <= k < |ts| ==> r.value[k] == TensorType(ts[k]).value
    ensures r.Err? ==> r.error == CheckFailed(UnsupportedTypeMessage)
  {
    var types: seq<MlirType> := [];
    for i := 0 to |ts|
      invariant |types| == i
      invariant forall k :: 0 <= k < i ==> TensorType(ts[k]).Ok? && types[k] == TensorType(ts[k]).value
    {
      var t := TensorType(ts[i]);
      if t.Err? {
        return Err(t.error);
      }
      types := types + [t.value];
    }
    r := Ok(types);
  }

  /** How many inputs createGenericOp passes: the loop stops when its index
      reaches `inNum`, which never happens for -1 (or any negative value, or
      a value past the last input). */
  function ArgCount(inNum: int, n: nat): (c: nat)
    ensures c <= n
    ensures inNum < 0 || inNum >= n ==> c == n
    ensures 0 <= inNum <= n ==> c == inNum
  {
    if 0 <= inNum < n then inNum else n
  }

  /** `v` exists before the `before`-th operation of `body`: an argument of
      the entry block, or a result of an earlier operation. */
  predicate Defined(v: MlirValue, numArgs: nat, body: seq<MlirOp>, before: nat)
    requires before <= |body|
  {
    match v
    case BlockArgument(a) => a < numArgs
    case OpResult(o, i) => o < before && i < |body[o].resultTypes|
  }

  /** SSA dominance: every operation reads only values defined before it. */
  predicate SSA(numArgs: nat, body: seq<MlirOp>)
  {
    forall o, k :: 0 <= o < |body| && 0 <= k < |body[o].operands| ==> Defined(body[o].operands[k], numArgs, body, o)
  }

  /** Every tensor in the value map is bound to a value that already exists. */
  predicate Bound(m: map<TensorId, MlirValue>, numArgs: nat, body: seq<MlirOp>)
  {
    forall t :: t in m ==> Defined(m[t], numArgs, body, |body|)
  }

  /** Bindings are never changed or dropped. */
  predicate Extends(m0: map<TensorId, MlirValue>, m1: map<TensorId, MlirValue>)
  {
    forall t :: t in m0 ==> t in m1 && m1[t] == m0[t]
  }

  /** Appending an operation that reads only existing values keeps SSA
      dominance and every binding valid. */
  lemma AppendKeepsSSA(m: map<TensorId, MlirValue>, numArgs: nat, body: seq<MlirOp>, op: MlirOp)
    requires SSA(numArgs, body) && Bound(m, numArgs, body)
    requires forall k :: 0 <= k < |op.operands| ==> Defined(op.operands[k], numArgs, body, |body|)
    ensures SSA(numArgs, body + [op]) && Bound(m, numArgs, body + [op])
  {
    var b := body + [op];
    forall o, k | 0 <= o < |b| && 0 <= k < |b[o].operands|
      ensures Defined(b[o].operands[k], numArgs, b, o)
    {
      if o < |body| {
        assert Defined(body[o].operands[k], numArgs, body, o);
      } else {
        assert Defined(op.operands[k], numArgs, body, |body|);
      }
    }
    forall t | t in m
      ensures Defined(m[t], numArgs, b, |b|)
    {
      assert Defined(m[t], numArgs, body, |body|);
    }
  }

  /** Binding a tensor to an existing value keeps every binding valid. */
  lemma BindKeepsBound(m: map<TensorId, MlirValue>, numArgs: nat, body: seq<MlirOp>, t: TensorId, v: MlirValue)
    requires Bound(m, numArgs, body) && Defined(v, numArgs, body, |body|)
    ensures Bound(m[t := v], numArgs, body)
  {
  }

  /** Rewriting an operation's attributes keeps its results and operands,
      so SSA dominance and every binding survive. */
  lemma SetAttrKeepsSSA(m: map<TensorId, MlirValue>, numArgs: nat, body: seq<MlirOp>, o: nat, attrs: map<string, Attr>)
    requires SSA(numArgs, body) && Bound(m, numArgs, body) && o < |body|
    ensures SSA(numArgs, body[o := body[o].(attrs := attrs)])
    ensures Bound(m, numArgs, body[o := body[o].(attrs := attrs)])
  {
    var b := body[o := body[o].(attrs := attrs)];
    forall p, k | 0 <= p < |b| && 0 <= k < |b[p].operands|
      ensures Defined(b[p].operands[k], numArgs, b, p)
    {
      assert Defined(body[p].operands[k], numArgs, body, p);
    }
    forall t | t in m
      ensures Defined(m[t], numArgs, b, |b|)
    {
      assert Defined(m[t], numArgs, body, |body|);
    }
  }

  /** The first argument position the input map gives parameter `nodeId`. */
  function LookupParam(inputMap: seq<ParamBinding>, nodeId: nat): (r: Result<nat, Error>)
    ensures r.Ok? <==> exists k :: 0 <= k < |inputMap| && inputMap[k].param.id == nodeId
    ensures r.Ok? ==> exists k :: 0 <= k < |inputMap| && inputMap[k].param.id == nodeId && inputMap[k].argId == r.value &&
                                  forall j :: 0 <= j < k ==> inputMap[j].param.id != nodeId
    ensures r.Err? ==> r.error == CheckFailed(NotInInputMapMessage)
  {
    if inputMap == [] then Err(CheckFailed(NotInInputMapMessage))
    else if inputMap[0].param.id == nodeId then Ok(inputMap[0].argId)
    else
      var rest := LookupParam(inputMap[1..], nodeId);
      if rest.Ok? then
        var k :| 0 <= k < |inputMap[1..]| && inputMap[1..][k].param.id == nodeId && inputMap[1..][k].argId == rest.value &&
                 forall j :: 0 <= j < k ==> inputMap[1..][j].param.id != nodeId;
        assert inputMap[k + 1] == inputMap[1..][k];
        rest
      else
        assert forall k :: 1 <= k < |inputMap| ==> inputMap[k] == inputMap[1..][k - 1];
        rest
  }

  /** Every parameter of the input map has an output tensor 0. */
  predicate HasTensors(inputMap: seq<ParamBinding>)
  {
    forall k :: 0 <= k < |inputMap| ==> |inputMap[k].param.outputs| > 0
  }

  /** The tensor a parameter's binding names: its output tensor 0. */
  function ParamTensor(b: ParamBinding): TensorId
    requires |b.param.outputs| > 0
  {
    b.param.outputs[0].id
  }

  /** No two parameters of the input map share an output tensor. */
  predicate DistinctTensors(inputMap: seq<ParamBinding>)
    requires HasTensors(inputMap)
  {
    forall i, j :: 0 <= i < j < |inputMap| ==> ParamTensor(inputMap[i]) != ParamTensor(inputMap[j])
  }

  /** The value map runOnOperation starts from: each parameter's output
      tensor 0 bound to its function argument, with map-insert semantics (an
      entry whose tensor is already bound is ignored). */
  function ParamBindings(inputMap: seq<ParamBinding>): (m: map<TensorId, MlirValue>)
    requires HasTensors(inputMap)
    ensures forall t :: t in m ==> exists k :: 0 <= k < |inputMap| && ParamTensor(inputMap[k]) == t &&
                                                m[t] == BlockArgument(inputMap[k].argId)
  {
    if inputMap == [] then map[]
    else
      var init := inputMap[..|inputMap| - 1];
      var last := inputMap[|inputMap| - 1];
      assert forall k :: 0 <= k < |init| ==> init[k] == inputMap[k];
      var prev := ParamBindings(init);
      if ParamTensor(last) in prev then prev else prev[ParamTensor(last) := BlockArgument(last.argId)]
  }

  /** When the parameters' output tensors are distinct, every parameter's
      tensor is bound to exactly its own argument. */
  lemma {:induction false} ParamBindingsExact(inputMap: seq<ParamBinding>, k: nat)
    requires HasTensors(inputMap) && DistinctTensors(inputMap) && k < |inputMap|
    ensures ParamTensor(inputMap[k]) in ParamBindings(inputMap)
    ensures ParamBindings(inputMap)[ParamTensor(inputMap[k])] == BlockArgument(inputMap[k].argId)
  {
    var n := |inputMap| - 1;
    var init := inputMap[..n];
    assert forall j :: 0 <= j < n ==> init[j] == inputMap[j];
    assert HasTensors(init) && DistinctTensors(init);
    if k < n {
      ParamBindingsExact(init, k);
      assert ParamTensor(inputMap[n]) != ParamTensor(inputMap[k]);
    } else {
      assert forall j :: 0 <= j < n ==> ParamTensor(init[j]) != ParamTensor(inputMap[k]);
    }
  }

  /** The parameters' output tensors: the tensors ParamBindings binds. */
  function ParamTensors(inputMap: seq<ParamBinding>): set<TensorId>
    requires HasTensors(inputMap)
  {
    set k | 0 <= k < |inputMap| :: ParamTensor(inputMap[k])
  }

  /** One more parameter adds its output tensor to the parameters' tensors. */
  lemma ParamTensorsSnoc(inputMap: seq<ParamBinding>)
    requires HasTensors(inputMap) && |inputMap| > 0
    ensures HasTensors(inputMap[..|inputMap| - 1])
    ensures ParamTensors(inputMap) ==
              ParamTensors(inputMap[..|inputMap| - 1]) + {ParamTensor(inputMap[|inputMap| - 1])}
  {
    var init := inputMap[..|inputMap| - 1];
    assert forall k :: 0 <= k < |init| ==> init[k] == inputMap[k];
    forall u | u in ParamTensors(inputMap)
      ensures u in ParamTensors(init) + {ParamTensor(inputMap[|inputMap| - 1])}
    {
      var k :| 0 <= k < |inputMap| && ParamTensor(inputMap[k]) == u;
      if k < |init| {
        assert ParamTensor(init[k]) == u;
      }
    }
  }

  /** ParamBindings binds exactly the parameters' output tensors. */
  lemma {:induction false} ParamBindingsKeys(inputMap: seq<ParamBinding>)
    requires HasTensors(inputMap)
    ensures ParamBindings(inputMap).Keys == ParamTensors(inputMap)
  {
    if inputMap != [] {
      ParamTensorsSnoc(inputMap);
      ParamBindingsKeys(inputMap[..|inputMap| - 1]);
    }
  }

  /** The tensors a list of descriptors names. */
  function Ids(ts: seq<TensorDesc>): set<TensorId>
  {
    set k | 0 <= k < |ts| :: ts[k].id
  }

  /** The converted types of tensors whose element types all convert. */
  function ResultTypes(outs: seq<TensorDesc>): (r: seq<MlirType>)
    requires forall k :: 0 <= k < |outs| ==> TensorType(outs[k]).Ok?
    ensures |r| == |outs|
  {
    seq(|outs|, k requires 0 <= k < |outs| => TensorType(outs[k]).value)
  }

  /** The values `env` binds to the first `n` tensors of `ts`. */
  function Values(env: map<TensorId, MlirValue>, ts: seq<TensorDesc>, n: nat): (r: seq<MlirValue>)
    requires n <= |ts| && forall k :: 0 <= k < n ==> ts[k].id in env
    ensures |r| == n
  {
    seq(n, k requires 0 <= k < n => env[ts[k].id])
  }

  /** The operation createGenericOp makes from the value map `env`: the
      first unbound input among the `n` it reads is "Undefined tensor",
      then an unsupported output type fails; otherwise the op reads those
      inputs' values and has one result per output. */
  function GenericOp(env: map<TensorId, MlirValue>, node: NgNode, opName: string, n: nat, attrs: map<string, Attr>)
    : (r: Result<MlirOp, Error>)
    requires n <= |node.inputs|
    ensures r.Ok? <==> (forall k :: 0 <= k < n ==> node.inputs[k].id in env) &&
                       (forall k :: 0 <= k < |node.outputs| ==> TensorType(node.outputs[k]).Ok?)
    ensures r.Err? ==> r.error == CheckFailed(UndefinedMessage) || r.error == CheckFailed(UnsupportedTypeMessage)
    ensures r.Err? && (forall k :: 0 <= k < n ==> node.inputs[k].id in env) ==> r.error == CheckFailed(UnsupportedTypeMessage)
    ensures r.Ok? ==> r.value.name == opName && r.value.attrs == attrs &&
                      |r.value.operands| == n && |r.value.resultTypes| == |node.outputs|
    ensures r.Ok? ==> forall k :: 0 <= k < n ==> r.value.operands[k] == env[node.inputs[k].id]
    ensures r.Ok? ==> forall k :: 0 <= k < |node.outputs| ==> r.value.resultTypes[k] == TensorType(node.outputs[k]).value
  {
    if exists k :: 0 <= k < n && node.inputs[k].id !in env then Err(CheckFailed(UndefinedMessage))
    else if exists k :: 0 <= k < |node.outputs| && TensorType(node.outputs[k]).Err? then Err(CheckFailed(UnsupportedTypeMessage))
    else Ok(MlirOp(opName, ResultTypes(node.outputs), Values(env, node.inputs, n), attrs))
  }

  /** The attributes createIndexReduction sets: "axes" = [reduction axis]. */
  function AxesAttrs(node: NgNode): map<string, Attr>
  {
    map["axes" := I64ArrayAttr([ToInt64(node.reductionAxis)])]
  }

  /** The operation a dispatcher entry creates for `node`. */
  function LowerOp(env: map<TensorId, MlirValue>, node: NgNode, lowering: Lowering): Result<MlirOp, Error>
  {
    match lowering
    case GenericLowering(opName, inNum) => GenericOp(env, node, opName, ArgCount(inNum, |node.inputs|), map[])
    case IndexReductionLowering(opName) => GenericOp(env, node, opName, |node.inputs|, AxesAttrs(node))
    case Unimplemented => Err(UnimplementedOp(node.info))
  }

  /** The value map after binding output k of `outs` to result k of the
      `o`-th operation, in order; binding a tensor twice fails. */
  function BindOutputs(env: map<TensorId, MlirValue>, outs: seq<TensorDesc>, o: nat): (r: Result<map<TensorId, MlirValue>, Error>)
    ensures r.Err? ==> r.error == CheckFailed(AlreadyDefinedMessage)
  {
    if outs == [] then Ok(env)
    else
      match BindOutputs(env, outs[..|outs| - 1], o)
      case Err(e) => Err(e)
      case Ok(m) =>
        var t := outs[|outs| - 1].id;
        if t in m then Err(CheckFailed(AlreadyDefinedMessage)) else Ok(m[t := OpResult(o, |outs| - 1)])
  }

  /** The outputs name distinct tensors, none of them bound yet. */
  predicate FreshIds(bound: set<TensorId>, outs: seq<TensorDesc>)
  {
    (forall k :: 0 <= k < |outs| ==> outs[k].id !in bound) &&
    (forall i, j :: 0 <= i < j < |outs| ==> outs[i].id != outs[j].id)
  }

  /** The outputs are fresh exactly when all but the last are and the last
      is neither bound nor among them. */
  lemma FreshIdsSnoc(bound: set<TensorId>, outs: seq<TensorDesc>)
    requires |outs| > 0
    ensures FreshIds(bound, outs) <==>
              FreshIds(bound, outs[..|outs| - 1]) && outs[|outs| - 1].id !in bound + Ids(outs[..|outs| - 1])
  {
    var n := |outs| - 1;
    var init := outs[..n];
    assert forall k :: 0 <= k < n ==> init[k] == outs[k];
    if FreshIds(bound, init) && outs[n].id !in bound + Ids(init) {
      forall i, j | 0 <= i < j < |outs|
        ensures outs[i].id != outs[j].id
      {
        if j == n {
          assert init[i].id in Ids(init);
        }
      }
    }
  }

  /** Binding one more output: the step of the binding loop. */
  lemma BindOutputsStep(env: map<TensorId, MlirValue>, outs: seq<TensorDesc>, o: nat, i: nat)
    requires i < |outs| && BindOutputs(env, outs[..i], o).Ok?
    ensures var m := BindOutputs(env, outs[..i], o).value;
            BindOutputs(env, outs[..i + 1], o) ==
              if outs[i].id in m then Err(CheckFailed(AlreadyDefinedMessage)) else Ok(m[outs[i].id := OpResult(o, i)])
  {
    assert outs[..i + 1][..i] == outs[..i];
  }

  /** Fresh outputs stay fresh in every prefix. */
  lemma FreshIdsPrefix(bound: set<TensorId>, outs: seq<TensorDesc>, j: nat)
    requires j <= |outs|
    ensures FreshIds(bound, outs) ==> FreshIds(bound, outs[..j])
  {
    assert forall k :: 0 <= k < j ==> outs[..j][k] == outs[k];
  }

  /** Binding succeeds exactly when the outputs are distinct and unbound. */
  lemma {:induction false} BindOutputsOk(env: map<TensorId, MlirValue>, outs: seq<TensorDesc>, o: nat)
    ensures BindOutputs(env, outs, o).Ok? <==> FreshIds(env.Keys, outs)
    ensures BindOutputs(env, outs, o).Ok? ==> BindOutputs(env, outs, o).value.Keys == env.Keys + Ids(outs)
  {
    if outs != [] {
      var n := |outs| - 1;
      var init := outs[..n];
      BindOutputsOk(env, init, o);
      FreshIdsSnoc(env.Keys, outs);
      assert Ids(outs) == Ids(init) + {outs[n].id} by {
        assert forall k :: 0 <= k < n ==> init[k] == outs[k];
      }
    }
  }

  /** A successful binding keeps every old binding and binds output k to
      result k of operation `o`. */
  lemma {:induction false} BindOutputsValues(env: map<TensorId, MlirValue>, outs: seq<TensorDesc>, o: nat)
    requires BindOutputs(env, outs, o).Ok?
    ensures forall t :: t in env ==> t in BindOutputs(env, outs, o).value && BindOutputs(env, outs, o).value[t] == env[t]
    ensures forall k :: 0 <= k < |outs| ==>
              outs[k].id in BindOutputs(env, outs, o).value && BindOutputs(env, outs, o).value[outs[k].id] == OpResult(o, k)
  {
    if outs != [] {
      var n := |outs| - 1;
      var init := outs[..n];
      BindOutputsValues(env, init, o);
      assert forall k :: 0 <= k < n ==> init[k] == outs[k];
    }
  }

  /** The builder's state as values: the value map and the body. */
  datatype BuildState = BuildState(env: map<TensorId, MlirValue>, ops: seq<MlirOp>)

  /** One iteration of buildNgDialect's node loop. */
  function NodeStep(s: BuildState, node: NgNode, dispatcher: map<NodeTypeInfo, Lowering>): Result<BuildState, Error>
  {
    if node.info !in dispatcher then Err(UnsupportedOp(node.info))
    else
      match LowerOp(s.env, node, dispatcher[node.info])
      case Err(e) => Err(e)
      case Ok(op) =>
        match BindOutputs(s.env, node.outputs, |s.ops|)
        case Err(e) => Err(e)
        case Ok(m) => Ok(BuildState(m, s.ops + [op]))
  }

  /** The node loop of buildNgDialect over `nodes`, stopping at the first error. */
  function BuildNodes(s0: BuildState, nodes: seq<NgNode>, dispatcher: map<NodeTypeInfo, Lowering>): Result<BuildState, Error>
  {
    if nodes == [] then Ok(s0)
    else
      match BuildNodes(s0, nodes[..|nodes| - 1], dispatcher)
      case Err(e) => Err(e)
      case Ok(s) => NodeStep(s, nodes[|nodes| - 1], dispatcher)
  }

  /** Once a prefix of the nodes fails, the whole loop fails the same way. */
  lemma {:induction false} BuildNodesSticky(s0: BuildState, nodes: seq<NgNode>, dispatcher: map<NodeTypeInfo, Lowering>, j: nat)
    requires j <= |nodes| && BuildNodes(s0, nodes[..j], dispatcher).Err?
    ensures BuildNodes(s0, nodes, dispatcher) == BuildNodes(s0, nodes[..j], dispatcher)
  {
    if j == |nodes| {
      assert nodes[..j] == nodes;
    } else {
      var init := nodes[..|nodes| - 1];
      assert init[..j] == nodes[..j];
      BuildNodesSticky(s0, init, dispatcher, j);
    }
  }

  /** After a successful node loop the body has grown by one operation per
      node, no binding was changed or dropped, and output i of node k is
      bound to result i of the k-th created operation. */
  lemma {:induction false} BuildNodesShape(s0: BuildState, nodes: seq<NgNode>, dispatcher: map<NodeTypeInfo, Lowering>)
    requires BuildNodes(s0, nodes, dispatcher).Ok?
    ensures |BuildNodes(s0, nodes, dispatcher).value.ops| == |s0.ops| + |nodes|
    ensures BuildNodes(s0, nodes, dispatcher).value.ops[..|s0.ops|] == s0.ops
    ensures Extends(s0.env, BuildNodes(s0, nodes, dispatcher).value.env)
    ensures forall k, i :: 0 <= k < |nodes| && 0 <= i < |nodes[k].outputs| ==>
              nodes[k].outputs[i].id in BuildNodes(s0, nodes, dispatcher).value.env &&
              BuildNodes(s0, nodes, dispatcher).value.env[nodes[k].outputs[i].id] == OpResult(|s0.ops| + k, i)
  {
    if nodes != [] {
      var init, last := nodes[..|nodes| - 1], nodes[|nodes| - 1];
      BuildNodesShape(s0, init, dispatcher);
      var s := BuildNodes(s0, init, dispatcher).value;
      BindOutputsValues(s.env, last.outputs, |s.ops|);
      assert forall k :: 0 <= k < |init| ==> nodes[k] == init[k];
    }
  }

  /** Lowering one more node: the step of the node loop. */
  lemma BuildNodesStep(s0: BuildState, nodes: seq<NgNode>, dispatcher: map<NodeTypeInfo, Lowering>, n: nat)
    requires n < |nodes| && BuildNodes(s0, nodes[..n], dispatcher).Ok?
    ensures BuildNodes(s0, nodes[..n + 1], dispatcher) == NodeStep(BuildNodes(s0, nodes[..n], dispatcher).value, nodes[n], dispatcher)
  {
    assert nodes[..n + 1][..n] == nodes[..n];
  }

  /** A node missing from the dispatcher makes the node loop fail. */
  lemma {:induction false} BuildNodesNeedsDispatch(s0: BuildState, nodes: seq<NgNode>, dispatcher: map<NodeTypeInfo, Lowering>)
    ensures (exists k :: 0 <= k < |nodes| && nodes[k].info !in dispatcher) ==> BuildNodes(s0, nodes, dispatcher).Err?
  {
    if nodes != [] {
      var init := nodes[..|nodes| - 1];
      BuildNodesNeedsDispatch(s0, init, dispatcher);
      assert forall k :: 0 <= k < |init| ==> nodes[k] == init[k];
    }
  }

  /** The node loop raises unsupported_op only for a node missing from the
      dispatcher, naming that node's identity. */
  lemma {:induction false} BuildNodesUnsupportedNames(s0: BuildState, nodes: seq<NgNode>, dispatcher: map<NodeTypeInfo, Lowering>)
    ensures BuildNodes(s0, nodes, dispatcher).Err? && BuildNodes(s0, nodes, dispatcher).error.UnsupportedOp? ==>
              exists k :: 0 <= k < |nodes| && nodes[k].info !in dispatcher &&
                          BuildNodes(s0, nodes, dispatcher).error.info == nodes[k].info
  {
    if nodes != [] {
      var init := nodes[..|nodes| - 1];
      BuildNodesUnsupportedNames(s0, init, dispatcher);
      assert forall k :: 0 <= k < |init| ==> nodes[k] == init[k];
    }
  }

  /** createReturn's operation: a return of the outputs' values; an unbound
      output is "Undefined tensor". */
  function ReturnOp(env: map<TensorId, MlirValue>, outs: seq<TensorDesc>): (r: Result<MlirOp, Error>)
    ensures r.Ok? <==> forall k :: 0 <= k < |outs| ==> outs[k].id in env
    ensures r.Err? ==> r.error == CheckFailed(UndefinedMessage)
    ensures r.Ok? ==> r.value.name == ReturnOpName && r.value.resultTypes == [] && |r.value.operands| == |outs|
    ensures r.Ok? ==> forall k :: 0 <= k < |outs| ==> r.value.operands[k] == env[outs[k].id]
  {
    if exists k :: 0 <= k < |outs| && outs[k].id !in env then Err(CheckFailed(UndefinedMessage))
    else Ok(MlirOp(ReturnOpName, [], Values(env, outs, |outs|), map[]))
  }

  /** buildNgDialect: the node loop, then the return. */
  function Build(s0: BuildState, nodes: seq<NgNode>, outs: seq<TensorDesc>, dispatcher: map<NodeTypeInfo, Lowering>)
    : Result<BuildState, Error>
  {
    match BuildNodes(s0, nodes, dispatcher)
    case Err(e) => Err(e)
    case Ok(s) =>
      match ReturnOp(s.env, outs)
      case Err(e) => Err(e)
      case Ok(ret) => Ok(BuildState(s.env, s.ops + [ret]))
  }

  /** The tensors of the kernel's inputs. */
  function InputTensors(kernel: CompiledKernel): (r: seq<TensorDesc>)
    ensures |r| == |kernel.inputs| && forall k :: 0 <= k < |kernel.inputs| ==> r[k] == kernel.inputs[k].tensor
  {
    seq(|kernel.inputs|, k requires 0 <= k < |kernel.inputs| => kernel.inputs[k].tensor)
  }

  /** The checks runOnOperation makes before building: inputs and outputs
      exist, and the function's argument and result types. */
  function Signature(kernel: CompiledKernel): Result<(seq<MlirType>, seq<MlirType>), Error>
  {
    if |kernel.inputs| == 0 then Err(CheckFailed(NoInputsMessage))
    else if |kernel.outputs| == 0 then Err(CheckFailed(NoOutputsMessage))
    else if exists k :: 0 <= k < |kernel.inputs| && TensorType(kernel.inputs[k].tensor).Err? then
      Err(CheckFailed(UnsupportedTypeMessage))
    else if exists k :: 0 <= k < |kernel.outputs| && TensorType(kernel.outputs[k]).Err? then
      Err(CheckFailed(UnsupportedTypeMessage))
    else Ok((ResultTypes(InputTensors(kernel)), ResultTypes(kernel.outputs)))
  }

  /** runOnOperation: the signature checks, then the body built from the
      parameter bindings. */
  function Conversion(kernel: CompiledKernel, dispatcher: map<NodeTypeInfo, Lowering>): Result<BuildState, Error>
    requires HasTensors(kernel.inputMap)
  {
    match Signature(kernel)
    case Err(e) => Err(e)
    case Ok(_) => Build(BuildState(ParamBindings(kernel.inputMap), []), kernel.nodeList, kernel.outputs, dispatcher)
  }

  class NgDialectConversionPass {
    /** The sub-graph being converted. */
    const kernel: CompiledKernel
    /** The op dispatcher: identity to lowering (its entries come from the
        list of supported ops). */
    const dispatcher: map<NodeTypeInfo, Lowering>

    /** m_tensorToValueMap. */
    var tensorToValue: map<TensorId, MlirValue>
    /** Argument types of the function being built (its entry block). */
    var argTypes: seq<MlirType>
    /** The operations the builder has created in the function body, in order. */
    var body: seq<MlirOp>
    /** The functions pushed into the module. */
    var funcs: seq<FuncOp>

    /** The environment discipline: every bound tensor names a value that
        exists, and every created operation reads only earlier values. */
    ghost predicate Valid()
      reads this
    {
      SSA(|argTypes|, body) && Bound(tensorToValue, |argTypes|, body)
    }

    constructor (kernel: CompiledKernel, dispatcher: map<NodeTypeInfo, Lowering>)
      ensures this.kernel == kernel && this.dispatcher == dispatcher
      ensures tensorToValue == map[] && argTypes == [] && body == [] && funcs == []
      ensures Valid()
    {
      this.kernel := kernel;
      this.dispatcher := dispatcher;
      tensorToValue := map[];
      argTypes := [];
      body := [];
      funcs := [];
    }

    /** getTensorValue: the value bound to `t`; an unbound tensor fails the
        check. */
    method GetTensorValue(t: TensorId) returns (r: Result<MlirValue, Error>)
      ensures r.Ok? <==> t in tensorToValue
      ensures r.Ok? ==> r.value == tensorToValue[t]
      ensures r.Err? ==> r.error == CheckFailed(UndefinedMessage)
    {
      if t !in tensorToValue {
        return Err(CheckFailed(UndefinedMessage));
      }
      r := Ok(tensorToValue[t]);
    }

    /** updateTensorValue: binds `t` to `v` once; binding it again fails the
        check and changes nothing. */
    method UpdateTensorValue(t: TensorId, v: MlirValue) returns (r: Outcome<Error>)
      modifies this`tensorToValue
      ensures r.Pass? <==> t !in old(tensorToValue)
      ensures r.Pass? ==> tensorToValue == old(tensorToValue)[t := v]
      ensures r.Fail? ==> tensorToValue == old(tensorToValue) && r.error == CheckFailed(AlreadyDefinedMessage)
    {
      if t in tensorToValue {
        return Fail(CheckFailed(AlreadyDefinedMessage));
      }
      tensorToValue := tensorToValue[t := v];
      r := Pass;
    }

    /** getOriginArg: the node that feeds the kernel input a parameter stands
        for. */
    method GetOriginArg(node: NgNode) returns (r: Result<nat, Error>)
      ensures LookupParam(kernel.inputMap, node.id).Err? ==> r == Err(CheckFailed(NotInInputMapMessage))
      ensures LookupParam(kernel.inputMap, node.id).Ok? ==>
                var argId := LookupParam(kernel.inputMap, node.id).value;
                r == if argId < |kernel.inputs| then Ok(kernel.inputs[argId].producer) else Err(OutOfRange)
    {
      var found := LookupParam(kernel.inputMap, node.id);
      if found.Err? {
        return Err(found.error);
      }
      if found.value >= |kernel.inputs| {
        return Err(OutOfRange);
      }
      r := Ok(kernel.inputs[found.value].producer);
    }

    /** createGenericOp: a dialect op named `opName` reading the values of the
        node's first ArgCount(inNum, ..) inputs, in order, with one result
        type per node output.  An unbound input fails before anything is
        created. */
    method CreateGenericOp(node: NgNode, opName: string, inNum: int) returns (r: Result<nat, Error>)
      requires Valid()
      modifies this`body
      ensures Valid()
      ensures r.Ok? <==>
                (forall k :: 0 <= k < ArgCount(inNum, |node.inputs|) ==> node.inputs[k].id in tensorToValue) &&
                (forall k :: 0 <= k < |node.outputs| ==> TensorType(node.outputs[k]).Ok?)
      ensures r.Err? ==> body == old(body) && r.error.CheckFailed?
      ensures r.Err? && (exists k :: 0 <= k < ArgCount(inNum, |node.inputs|) && node.inputs[k].id !in tensorToValue) ==>
                r.error == CheckFailed(UndefinedMessage)
      ensures r.Ok? ==> r.value == |old(body)| && |body| == |old(body)| + 1 && body[..r.value] == old(body)
      ensures r.Ok? ==> body[r.value].name == opName && body[r.value].attrs == map[]
      ensures r.Ok? ==> |body[r.value].operands| == ArgCount(inNum, |node.inputs|) &&
                        forall k :: 0 <= k < |body[r.value].operands| ==>
                          body[r.value].operands[k] == tensorToValue[node.inputs[k].id]
      ensures r.Ok? ==> |body[r.value].resultTypes| == |node.outputs| &&
                        forall k :: 0 <= k < |node.outputs| ==>
                          body[r.value].resultTypes[k] == TensorType(node.outputs[k]).value
      ensures var spec := GenericOp(tensorToValue, node, opName, ArgCount(inNum, |node.inputs|), map[]);
              (r.Ok? <==> spec.Ok?) && (r.Err? ==> r.error == spec.error) &&
              (r.Ok? ==> body == old(body) + [spec.value])
    {
      var argValues: seq<MlirValue> := [];
      var i := 0;
      while i < |node.inputs|
        invariant body == old(body)
        invariant 0 <= i <= ArgCount(inNum, |node.inputs|)
        invariant |argValues| == i
        invariant forall k :: 0 <= k < i ==> node.inputs[k].id in tensorToValue && argValues[k] == tensorToValue[node.inputs[k].id]
      {
        if inNum != -1 && i == inNum {
          break;
        }
        var argV := GetTensorValue(node.inputs[i].id);
        if argV.Err? {
          return Err(argV.error);
        }
        argValues := argValues + [argV.value];
        i := i + 1;
      }
      assert i == ArgCount(inNum, |node.inputs|);
      var resTypes := CollectTypes(node.outputs);
      if resTypes.Err? {
        return Err(resTypes.error);
      }
      var op := MlirOp(opName, resTypes.value, argValues, map[]);
      assert resTypes.value == ResultTypes(node.outputs);
      assert argValues == Values(tensorToValue, node.inputs, i);
      AppendKeepsSSA(tensorToValue, |argTypes|, body, op);
      r := Ok(|body|);
      body := body + [op];
    }

    /** createIndexReduction: a generic op over all inputs, tagged with the
        node's reduction axis as the "axes" attribute. */
    method CreateIndexReduction(node: NgNode, opName: string) returns (r: Result<nat, Error>)
      requires Valid()
      modifies this`body
      ensures Valid()
      ensures r.Ok? <==>
                (forall k :: 0 <= k < |node.inputs| ==> node.inputs[k].id in tensorToValue) &&
                (forall k :: 0 <= k < |node.outputs| ==> TensorType(node.outputs[k]).Ok?)
      ensures r.Err? ==> body == old(body) && r.error.CheckFailed?
      ensures r.Ok? ==> r.value == |old(body)| && |body| == |old(body)| + 1 && body[..r.value] == old(body)
      ensures r.Ok? ==> body[r.value].name == opName &&
                        body[r.value].attrs == map["axes" := I64ArrayAttr([ToInt64(node.reductionAxis)])]
      ensures r.Ok? ==> |body[r.value].operands| == |node.inputs| &&
                        forall k :: 0 <= k < |node.inputs| ==> body[r.value].operands[k] == tensorToValue[node.inputs[k].id]
      ensures r.Ok? ==> |body[r.value].resultTypes| == |node.outputs| &&
                        forall k :: 0 <= k < |node.outputs| ==>
                          body[r.value].resultTypes[k] == TensorType(node.outputs[k]).value
      ensures var spec := GenericOp(tensorToValue, node, opName, |node.inputs|, AxesAttrs(node));
              (r.Ok? <==> spec.Ok?) && (r.Err? ==> r.error == spec.error) &&
              (r.Ok? ==> body == old(body) + [spec.value])
    {
      r := CreateGenericOp(node, opName, -1);
      if r.Ok? {
        var o := r.value;
        var attrs := body[o].attrs["axes" := I64ArrayAttr([ToInt64(node.reductionAxis)])];
        assert attrs == AxesAttrs(node);
        SetAttrKeepsSSA(tensorToValue, |argTypes|, body, o, attrs);
        body := body[o := body[o].(attrs := attrs)];
      }
    }

    /** createReturn: a return of the kernel outputs' values, in order; an
        unbound output fails the check. */
    method CreateReturn() returns (r: Outcome<Error>)
      requires Valid()
      modifies this`body
      ensures Valid()
      ensures r.Pass? <==> forall k :: 0 <= k < |kernel.outputs| ==> kernel.outputs[k].id in tensorToValue
      ensures r.Fail? ==> body == old(body) && r.error == CheckFailed(UndefinedMessage)
      ensures r.Pass? ==> |body| == |old(body)| + 1 && body[..|old(body)|] == old(body)
      ensures r.Pass? ==> body[|old(body)|].name == ReturnOpName && body[|old(body)|].resultTypes == [] &&
                          |body[|old(body)|].operands| == |kernel.outputs| &&
                          forall k :: 0 <= k < |kernel.outputs| ==>
                            body[|old(body)|].operands[k] == tensorToValue[kernel.outputs[k].id]
      ensures (r.Pass? <==> ReturnOp(tensorToValue, kernel.outputs).Ok?) &&
              (r.Fail? ==> r.error == ReturnOp(tensorToValue, kernel.outputs).error) &&
              (r.Pass? ==> body == old(body) + [ReturnOp(tensorToValue, kernel.outputs).value])
    {
      var valueList: seq<MlirValue> := [];
      for i := 0 to |kernel.outputs|
        invariant body == old(body)
        invariant |valueList| == i
        invariant forall k :: 0 <= k < i ==>
                    kernel.outputs[k].id in tensorToValue && valueList[k] == tensorToValue[kernel.outputs[k].id]
      {
        var v := GetTensorValue(kernel.outputs[i].id);
        if v.Err? {
          return Fail(v.error);
        }
        valueList := valueList + [v.value];
      }
      var ret := MlirOp(ReturnOpName, [], valueList, map[]);
      assert valueList == Values(tensorToValue, kernel.outputs, |kernel.outputs|);
      AppendKeepsSSA(tensorToValue, |argTypes|, body, ret);
      body := body + [ret];
      r := Pass;
    }

    /** Lower one node through its dispatcher entry. */
    method Lower(node: NgNode, lowering: Lowering) returns (r: Result<nat, Error>)
      requires Valid()
      modifies this`body
      ensures Valid()
      ensures r.Err? ==> body == old(body) && (r.error.CheckFailed? || r.error.UnimplementedOp?)
      ensures r.Ok? ==> r.value == |old(body)| && |body| == |old(body)| + 1 && body[..r.value] == old(body)
      ensures r.Ok? ==> |body[r.value].resultTypes| == |node.outputs|
      ensures lowering.Unimplemented? ==> r == Err(UnimplementedOp(node.info))
      ensures (r.Ok? <==> LowerOp(tensorToValue, node, lowering).Ok?) &&
              (r.Err? ==> r.error == LowerOp(tensorToValue, node, lowering).error) &&
              (r.Ok? ==> body == old(body) + [LowerOp(tensorToValue, node, lowering).value])
    {
      match lowering {
        case GenericLowering(opName, inNum) =>
          r := CreateGenericOp(node, opName, inNum);
        case IndexReductionLowering(opName) =>
          r := CreateIndexReduction(node, opName);
        case Unimplemented =>
          r := Err(UnimplementedOp(node.info));
      }
    }

    /** Bind output i of `node` to result i of operation `o`, for every
        output, in order. */
    method BindResults(node: NgNode, o: nat) returns (r: Outcome<Error>)
      requires Valid() && o < |body| && |body[o].resultTypes| == |node.outputs|
      modifies this`tensorToValue
      ensures Valid()
      ensures Extends(old(tensorToValue), tensorToValue)
      ensures r.Fail? ==> r.error == CheckFailed(AlreadyDefinedMessage)
      ensures r.Pass? ==> forall i :: 0 <= i < |node.outputs| ==>
                node.outputs[i].id in tensorToValue && tensorToValue[node.outputs[i].id] == OpResult(o, i)
      ensures r.Pass? <==> FreshIds(old(tensorToValue).Keys, node.outputs)
      ensures r.Pass? ==> tensorToValue.Keys == old(tensorToValue).Keys + Ids(node.outputs)
      ensures (r.Pass? <==> BindOutputs(old(tensorToValue), node.outputs, o).Ok?) &&
              (r.Pass? ==> tensorToValue == BindOutputs(old(tensorToValue), node.outputs, o).value)
    {
      BindOutputsOk(old(tensorToValue), node.outputs, o);
      for i := 0 to |node.outputs|
        invariant Valid()
        invariant Extends(old(tensorToValue), tensorToValue)
        invariant BindOutputs(old(tensorToValue), node.outputs[..i], o) == Ok(tensorToValue)
      {
        BindOutputsStep(old(tensorToValue), node.outputs, o, i);
        BindKeepsBound(tensorToValue, |argTypes|, body, node.outputs[i].id, OpResult(o, i));
        var st := UpdateTensorValue(node.outputs[i].id, OpResult(o, i));
        if st.Fail? {
          BindOutputsOk(old(tensorToValue), node.outputs[..i + 1], o);
          FreshIdsPrefix(old(tensorToValue).Keys, node.outputs, i + 1);
          return st;
        }
      }
      assert node.outputs[..|node.outputs|] == node.outputs;
      BindOutputsValues(old(tensorToValue), node.outputs, o);
      r := Pass;
    }

    /** The node loop of buildNgDialect: lower each node in list order and
        bind result i of its operation to its output tensor i, stopping at
        the first error. */
    method LowerNodes() returns (r: Outcome<Error>)
      requires Valid()
      modifies this`body, this`tensorToValue
      ensures Valid()
      ensures Extends(old(tensorToValue), tensorToValue)
      ensures |old(body)| <= |body| && body[..|old(body)|] == old(body)
      ensures var spec := BuildNodes(BuildState(old(tensorToValue), old(body)), kernel.nodeList, dispatcher);
              (r.Pass? <==> spec.Ok?) && (r.Fail? ==> r.error == spec.error) &&
              (r.Pass? ==> BuildState(tensorToValue, body) == spec.value)
    {
      ghost var s0 := BuildState(tensorToValue, body);
      var nodes := kernel.nodeList;
      for n := 0 to |nodes|
        invariant Valid()
        invariant Extends(old(tensorToValue), tensorToValue)
        invariant |old(body)| <= |body| && body[..|old(body)|] == old(body)
        invariant BuildNodes(s0, nodes[..n], dispatcher) == Ok(BuildState(tensorToValue, body))
      {
        BuildNodesStep(s0, nodes, dispatcher, n);
        var np := nodes[n];
        if np.info !in dispatcher {
          r := Fail(UnsupportedOp(np.info));
          BuildNodesSticky(s0, nodes, dispatcher, n + 1);
          return;
        }
        var op := Lower(np, dispatcher[np.info]);
        if op.Err? {
          r := Fail(op.error);
          BuildNodesSticky(s0, nodes, dispatcher, n + 1);
          return;
        }
        var bound := BindResults(np, op.value);
        if bound.Fail? {
          r := bound;
          BuildNodesSticky(s0, nodes, dispatcher, n + 1);
          return;
        }
      }
      assert nodes[..|nodes|] == nodes;
      r := Pass;
    }

    /** buildNgDialect: lower the kernel's nodes in list order, binding
        result i of each created op to the node's output tensor i, then add
        the return.  A node whose identity is not in the dispatcher raises
        unsupported_op. */
    method BuildNgDialect() returns (r: Outcome<Error>)
      requires Valid()
      modifies this`body, this`tensorToValue
      ensures Valid()
      ensures Extends(old(tensorToValue), tensorToValue)
      ensures |old(body)| <= |body| && body[..|old(body)|] == old(body)
      ensures (exists k :: 0 <= k < |kernel.nodeList| && kernel.nodeList[k].info !in dispatcher) ==> r.Fail?
      ensures r.Fail? && r.error.UnsupportedOp? ==>
                exists k :: 0 <= k < |kernel.nodeList| && kernel.nodeList[k].info !in dispatcher &&
                            r.error.info == kernel.nodeList[k].info
      ensures r.Pass? ==> |body| == |old(body)| + |kernel.nodeList| + 1 && body[|body| - 1].name == ReturnOpName
      ensures r.Pass? ==> forall k, i :: 0 <= k < |kernel.nodeList| && 0 <= i < |kernel.nodeList[k].outputs| ==>
                kernel.nodeList[k].outputs[i].id in tensorToValue &&
                tensorToValue[kernel.nodeList[k].outputs[i].id] == OpResult(|old(body)| + k, i)
      ensures var spec := Build(BuildState(old(tensorToValue), old(body)), kernel.nodeList, kernel.outputs, dispatcher);
              (r.Pass? <==> spec.Ok?) && (r.Fail? ==> r.error == spec.error) &&
              (r.Pass? ==> BuildState(tensorToValue, body) == spec.value)
    {
      ghost var s0 := BuildState(tensorToValue, body);
      BuildNodesNeedsDispatch(s0, kernel.nodeList, dispatcher);
      BuildNodesUnsupportedNames(s0, kernel.nodeList, dispatcher);
      r := LowerNodes();
      if r.Pass? {
        BuildNodesShape(s0, kernel.nodeList, dispatcher);
        r := CreateReturn();
      }
    }

    /** The input-map loop of runOnOperation: bind each parameter's output
        tensor 0 to its function argument, keeping an existing binding. */
    method BindParameters()
      requires tensorToValue == map[] && body == []
      requires forall k :: 0 <= k < |kernel.inputMap| ==>
                 |kernel.inputMap[k].param.outputs| > 0 && kernel.inputMap[k].argId < |argTypes|
      modifies this`tensorToValue
      ensures tensorToValue == ParamBindings(kernel.inputMap)
      ensures Valid()
    {
      var inputMap := kernel.inputMap;
      for i := 0 to |inputMap|
        invariant tensorToValue == ParamBindings(inputMap[..i])
      {
        var p := inputMap[i];
        assert inputMap[..i + 1][..i] == inputMap[..i];
        var t := ParamTensor(p);
        if t !in tensorToValue {
          tensorToValue := tensorToValue[t := BlockArgument(p.argId)];
        }
      }
      assert inputMap[..|inputMap|] == inputMap;
      forall t | t in tensorToValue
        ensures Defined(tensorToValue[t], |argTypes|, body, |body|)
      {
        var k :| 0 <= k < |inputMap| && ParamTensor(inputMap[k]) == t &&
                 tensorToValue[t] == BlockArgument(inputMap[k].argId);
      }
    }

    /** The checks at the start of runOnOperation: the kernel has inputs and
        outputs, and the types of the function's arguments and results. */
    method CheckSignature() returns (r: Result<(seq<MlirType>, seq<MlirType>), Error>)
      ensures r == Signature(kernel)
    {
      if |kernel.inputs| == 0 {
        return Err(CheckFailed(NoInputsMessage));
      }
      if |kernel.outputs| == 0 {
        return Err(CheckFailed(NoOutputsMessage));
      }
      var inputTensors := seq(|kernel.inputs|, k requires 0 <= k < |kernel.inputs| => kernel.inputs[k].tensor);
      assert inputTensors == InputTensors(kernel);
      var args := CollectTypes(inputTensors);
      if args.Err? {
        return Err(args.error);
      }
      var results := CollectTypes(kernel.outputs);
      if results.Err? {
        return Err(results.error);
      }
      assert args.value == ResultTypes(inputTensors);
      assert results.value == ResultTypes(kernel.outputs);
      r := Ok((args.value, results.value));
    }

    /** runOnOperation: check the kernel has inputs and outputs, type the
        function's arguments and results, bind each parameter's output
        tensor 0 to its argument, build the body and add the function to the
        module. */
    method RunOnOperation() returns (r: Outcome<Error>)
      requires tensorToValue == map[]
      requires forall k :: 0 <= k < |kernel.inputMap| ==>
                 |kernel.inputMap[k].param.outputs| > 0 && kernel.inputMap[k].argId < |kernel.inputs|
      modifies this
      ensures |kernel.inputs| == 0 ==> r == Fail(CheckFailed(NoInputsMessage))
      ensures |kernel.inputs| != 0 && |kernel.outputs| == 0 ==> r == Fail(CheckFailed(NoOutputsMessage))
      ensures r.Pass? ==> Valid()
      ensures r.Pass? ==> Extends(ParamBindings(kernel.inputMap), tensorToValue)
      ensures r.Pass? ==> |argTypes| == |kernel.inputs| &&
                          forall k :: 0 <= k < |kernel.inputs| ==>
                            TensorType(kernel.inputs[k].tensor).Ok? && argTypes[k] == TensorType(kernel.inputs[k].tensor).value
      ensures r.Pass? ==> |funcs| == |old(funcs)| + 1 && funcs[..|old(funcs)|] == old(funcs)
      ensures r.Pass? ==> var f := funcs[|funcs| - 1];
                          f.name == "main" && f.argTypes == argTypes && f.body == body &&
                          |f.resultTypes| == |kernel.outputs| &&
                          (forall k :: 0 <= k < |kernel.outputs| ==>
                             TensorType(kernel.outputs[k]).Ok? && f.resultTypes[k] == TensorType(kernel.outputs[k]).value) &&
                          SSA(|f.argTypes|, f.body)
      ensures r.Pass? ==> |body| == |kernel.nodeList| + 1 && body[|body| - 1].name == ReturnOpName
      ensures r.Pass? ==> forall k, i :: 0 <= k < |kernel.nodeList| && 0 <= i < |kernel.nodeList[k].outputs| ==>
                kernel.nodeList[k].outputs[i].id in tensorToValue &&
                tensorToValue[kernel.nodeList[k].outputs[i].id] == OpResult(k, i)
      ensures (exists k :: 0 <= k < |kernel.nodeList| && kernel.nodeList[k].info !in dispatcher) ==> r.Fail?
      ensures (r.Pass? <==> Conversion(kernel, dispatcher).Ok?) &&
              (r.Fail? ==> r.error == Conversion(kernel, dispatcher).error) &&
              (r.Pass? ==> BuildState(tensorToValue, body) == Conversion(kernel, dispatcher).value)
    {
      var sig := CheckSignature();
      if sig.Err? {
        return Fail(sig.error);
      }
      argTypes := sig.value.0;
      body := [];
      BindParameters();
      r := BuildNgDialect();
      if r.Pass? {
        funcs := funcs + [FuncOp("main", argTypes, sig.value.1, body)];
      }
    }
  }
}
