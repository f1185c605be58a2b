# nGraph IR core: like-replacement, the dialect builder, Atanh identity, host tensors

A Dafny model of four small pieces of the nGraph intermediate representation:

- **LikeReplacement** (`like_replacement.dfy`, over `graph.dfy`). This graph-rewrite pass visits the function's ops in order. It dispatches on each op's `(name, version)` type identity.
  - Every `BroadcastLike` becomes a plain `Broadcast` of its input 0 with the same broadcast shape and axes. This drops the pseudo-dependency on the "like" argument.
  - Every `ScalarConstantLike` becomes its constant.
  - The pass reports whether anything changed.

  A function is an arena of nodes, where a node is its kind, its input list and its shape. `Function` is a class whose node list `replace_node` rewrites in place.
- **NgDialectBuilder** (`ng_dialect_builder.dfy`). This is the conversion of a compiled kernel's sub-graph into the nGraph MLIR dialect.
  - MLIR values are opaque: an entry-block argument, or result `i` of the `o`-th created operation.
  - The function body is the list of created operations.
  - The pass is a class over the tensor-to-value map, the argument types, the body and the list of emitted functions.
  - Its invariant is SSA discipline. Every bound tensor names a value that exists, and every operation reads only values defined before it.
  - `ng_conversion.dfy` characterises when the whole conversion succeeds, and which node stops it when it fails.
- **Atanh** (`atanh.dfy`). The v3 `Atanh` op's constant identity `("Atanh", 3)`, its empty attribute visit, its unary shape contract, and the rejection of boolean arguments.
- **HostTensors** (`host_tensor.dfy`). A host tensor is a class over a byte array of exactly `product(shape) * element width` bytes. It supports range `write`/`read` and `copy_to`. The round trips asserted by the tensor tests are postconditions of scenario methods.

Shared pieces:
- `wrappers.dfy`: the `Result`/`Outcome` error types.
- `op_identity.dfy`: `NodeTypeInfo`.
- `element_types.dfy`: nGraph element types and their byte widths.

Errors that the sources raise with `NGRAPH_CHECK`, `throw` or `.at` become `Err`/`Fail` values carrying the source's message.

## Model

| member | source | states |
|---|---|---|
| Graph.Replaced | src/ngraph/pass/like_replacement.cpp:41-44 | replace_node adds the replacement to the arena. Every input that read output i of the target now reads output i of the replacement, and no other input changes. The results are unchanged and the old node has no consumers left. |
| Graph.ReplacedValid | src/ngraph/pass/like_replacement.cpp:41-44 | A well-formed replacement that reads neither the target nor itself keeps the graph valid: inputs stay in range, arities are respected, and results are still Result nodes. |
| Graph.ReplacedKeepsDetached | src/ngraph/pass/like_replacement.cpp:41-44 | A node with no consumers still has none after a replacement that does not read it. |
| Graph.Function.ReplaceNode | src/ngraph/pass/like_replacement.cpp:41-44 | The in-place rewiring loop leaves the function equal to Replaced of its old state. |
| Graph.GetOutputOp | test/tensor.cpp:178-181 | get_output_op(i) succeeds exactly for i below the number of outputs and returns the i-th output node. |
| Graph.TypeInfoIdentifiesClass | src/ngraph/pass/like_replacement.cpp:69 | get_type_info() of a well-formed op is a built-in identity exactly when the op is of a built-in class. It is Result's, BroadcastLike's or ScalarConstantLike's exactly for that class, and any other class reports its own identity. |
| Graph.IsOutput | test/tensor.cpp:180 | is_output() holds for a well-formed op exactly when its identity is Result's. |
| LikeReplacement.DispatchByIdentity | src/ngraph/pass/like_replacement.cpp:55-63 | Lookup by (name, version) finds a handler exactly for BroadcastLike and ScalarConstantLike, and it is the handler written for that class. |
| LikeReplacement.Replacement | src/ngraph/pass/like_replacement.cpp:36-53 | The node a handler builds is well formed. It reads only inputs of the replaced node, and never the replaced node itself. |
| LikeReplacement.Step | src/ngraph/pass/like_replacement.cpp:69-73 | One loop iteration. An op without a handler leaves the graph unchanged. A handled op gets exactly one new node, and the op is left without consumers. A BroadcastLike's new node is a Broadcast of its input 0 with its own shape and axes. A ScalarConstantLike's new node is its Constant with no inputs. The graph stays valid. |
| LikeReplacement.Pass | src/ngraph/pass/like_replacement.cpp:65-76 | After the whole op list, the graph is valid. It has one extra node per handled op, the same outputs, and every original node with its original kind and shape. |
| LikeReplacement.ClobberedIffDispatched | src/ngraph/pass/like_replacement.cpp:65-76 | The count of handled ops is positive iff some op in the list has a handler. |
| LikeReplacement.PassIsIdentityIffNothingDispatched | src/ngraph/pass/like_replacement.cpp:69-73 | The pass leaves the function exactly as it was iff no op in the list has a handler. |
| LikeReplacement.PassDetachesHandled | src/ngraph/pass/like_replacement.cpp:38-44 | After the pass, no node reads any handled op: the like argument is no longer a dependency. |
| LikeReplacement.PassKeepsEarlierKinds | src/ngraph/pass/like_replacement.cpp:66-74 | Later iterations never change the kind of any node that an earlier prefix of the pass produced. |
| LikeReplacement.PassReplacementAt | src/ngraph/pass/like_replacement.cpp:40-51 | The node built for the i-th handled op is at arena position (original size + handled ops before i). It is a Broadcast with the same shape and axes and one input, or the Constant with no inputs. |
| LikeReplacement.PassUnfold | src/ngraph/pass/like_replacement.cpp:66-74 | Visiting one more op is one more Step, and it adds one to the handled count exactly when that op has a handler. |
| LikeReplacement.ReplaceBroadcastLike | src/ngraph/pass/like_replacement.cpp:36-46 | The handler always reports a change and performs the BroadcastLike Step on the function. |
| LikeReplacement.ReplaceScalarConstantLike | src/ngraph/pass/like_replacement.cpp:48-53 | The handler always reports a change and performs the ScalarConstantLike Step on the function. |
| LikeReplacement.RunOnFunction | src/ngraph/pass/like_replacement.cpp:59-77 | run_on_function leaves the function equal to Pass over the op list. Every handled op is rewritten even once clobbered is already true. It returns true iff some op had a handler. |
| LikeReplacement.PassKeepsOutputFlag | test/tensor.cpp:168-181 | After the pass, output op i of the function is the same node as before, and it still reports is_output(). |
| Atanh.GetTypeInfo | src/ngraph/op/atanh.hpp:34-35 | get_type_info() is the static pair ("Atanh", 3), whatever the node. |
| Atanh.VisitAttributes | src/ngraph/op/atanh.hpp:49 | visit_attributes succeeds and presents no attribute to the visitor. |
| Atanh.Output | src/ngraph/op/atanh.hpp:40-45 | The output has the argument's shape [d1, ...] and element type. |
| Atanh.Construct | src/ngraph/op/atanh.hpp:31-45 | Constructing Atanh over an argument succeeds iff the argument is not boolean. A boolean argument is rejected with a type mismatch, as a unary elementwise arithmetic op. On success the node has the identity ("Atanh", 3), and its output is the argument's. |
| Atanh.CloneWithNewInputs | src/ngraph/op/atanh.hpp:31-48 | Cloning succeeds iff exactly one new argument is given and it is not boolean. A wrong count reports the arity, and a boolean argument reports a type mismatch. A clone has the same identity, and its output is that argument's. |
| HostTensors.ShapeSize | test/tensor.cpp:40-49 | shape_size is zero exactly when some dimension is zero. The scalar shape {} holds one element. |
| HostTensors.SizeInBytes | test/tensor.cpp:40-49 | A tensor's byte size is zero exactly when its element type has no width or some dimension is zero. |
| HostTensors.TensorSizeCases | test/tensor.cpp:33-77 | f32 {2,3} is 24 bytes, and f32 {} and f32 {1} are 4 bytes each (the scalar shape has product 1). |
| HostTensors.ReadAfterOverwrite | test/tensor.cpp:88-100 | Reading back a written byte range yields exactly the written bytes. The buffer keeps its length and every byte outside the range. |
| HostTensors.WriteTwiceSideBySide | test/tensor.cpp:88-95 | Two writes of the same bytes at 0 and right after them fill a buffer of twice their size with their concatenation. |
| HostTensors.FillTwice | test/tensor.cpp:88-91 | The two writes of test_read_write leave a buffer of twice x's bytes holding exactly two copies of them. |
| HostTensors.WriteThenRead | test/tensor.cpp:113-114 | Writing bytes at offset 0 and reading the same range back succeeds iff they fit, and returns exactly the written bytes. |
| HostTensors.CopyWhole | test/tensor.cpp:116-117 | copy_to over the source's whole size leaves the destination holding exactly the source's bytes. |
| HostTensors.HostTensor.constructor | test/tensor.cpp:84 | create_tensor allocates a fresh buffer of exactly the tensor's byte size. |
| HostTensors.HostTensor.GetSizeInBytes | test/tensor.cpp:116 | get_size_in_bytes() is product(shape) times the element width. |
| HostTensors.HostTensor.Write | test/tensor.cpp:88-90 | write succeeds iff the range fits, and then the buffer is the old buffer with the source bytes over that range. Otherwise nothing changes. |
| HostTensors.HostTensor.Read | test/tensor.cpp:94-100 | read succeeds iff the range fits, and returns exactly those bytes. Otherwise it reports the range and the size. |
| HostTensors.HostTensor.CopyTo | test/tensor.cpp:116-117 | copy_to succeeds iff the range fits both tensors. The destination then holds the source's old bytes over that range, on either path (same backend, or staged through a read and a write). |
| HostTensors.FlattenSlice | test/tensor.cpp:97-101 | Elements i..j of an element vector are the bytes between the encodings of its first i and its first j elements. |
| HostTensors.DoubledWindow | test/tensor.cpp:97-101 | Of two copies of x side by side, the |x| elements from element 1 on are the bytes from the end of element 0 on. |
| HostTensors.TwoRowLayout | test/tensor.cpp:84-101 | A {2, n} tensor holds exactly two encodings of x. The window that test_read_write reads (one element width in, n elements long) fits the buffer and is elements 1..n of the concatenation. |
| HostTensors.SquareLayout | test/tensor.cpp:108-113 | x fits a {n/2, n/2} tensor exactly when n <= (n/2)^2. |
| HostTensors.ReadWriteScenario | test/tensor.cpp:79-102 | test_read_write: the whole read equals the concatenation of the two writes, and the windowed read equals elements 1..n of it. |
| HostTensors.CopyToScenario | test/tensor.cpp:104-143 | test_copy_to_same_backend / test_copy_to_other_backend: the write succeeds iff x fits. When it does, the bytes read back from the copy equal those read from the original, for every pair of backends. |
| NgDialectBuilder.MlirElementType | src/contrib/mlir/core/pass/ng_dialect_builder.cpp:217-266 | getMlirType fails exactly on undefined, dynamic and u1. bf16/f16/f32/f64 map to float types. Integers map to integer types of 8 x their byte width, signed exactly for i8..i64. Boolean maps to an 8-bit unsigned integer. |
| NgDialectBuilder.MlirElementTypeCollisions | src/contrib/mlir/core/pass/ng_dialect_builder.cpp:242-246 | Two supported element types share a dialect type iff they are equal, or they are u8 and boolean. |
| NgDialectBuilder.ToInt64 | src/contrib/mlir/core/pass/ng_dialect_builder.cpp:187 | The size_t-to-int64_t conversion lands in the int64 range and agrees with the dimension modulo 2^64. |
| NgDialectBuilder.MlirShapeRoundTrip | src/contrib/mlir/core/pass/ng_dialect_builder.cpp:184-189 | The converted shape has the same length. Converting each entry back gives the nGraph dimension, and dimensions below 2^63 pass unchanged. |
| NgDialectBuilder.TensorType | src/contrib/mlir/core/pass/ng_dialect_builder.cpp:208-214 | The tensor type exists iff the element type converts, and it is that element type over the converted shape. |
| NgDialectBuilder.GetMlirShape | src/contrib/mlir/core/pass/ng_dialect_builder.cpp:184-189 | getMlirShape appends the dimensions in order: same length, and entry k is dimension k converted to int64. |
| NgDialectBuilder.GetShapeAsAttr | src/contrib/mlir/core/pass/ng_dialect_builder.cpp:191-196 | The attribute is the i64 array of the converted shape. |
| NgDialectBuilder.CollectTypes | src/contrib/mlir/core/pass/ng_dialect_builder.cpp:153-159 | The type-list loops succeed iff every tensor's element type converts, and then give one type per tensor, in order. |
| NgDialectBuilder.ArgCount | src/contrib/mlir/core/pass/ng_dialect_builder.cpp:642-650 | The number of inputs the inNum loop takes: all of them for -1, for any negative value or for a value past the last input, and exactly inNum otherwise. |
| NgDialectBuilder.AppendKeepsSSA | src/contrib/mlir/core/pass/ng_dialect_builder.cpp:656-660 | Creating an operation that reads only existing values keeps SSA dominance and every binding valid. |
| NgDialectBuilder.SetAttrKeepsSSA | src/contrib/mlir/core/pass/ng_dialect_builder.cpp:690 | Setting an attribute keeps SSA dominance and every binding valid. |
| NgDialectBuilder.LookupParam | src/contrib/mlir/core/pass/ng_dialect_builder.cpp:199-201 | The input-map lookup succeeds iff some entry is that parameter, and then returns the argument of the first such entry. Otherwise it fails with "Parameter not in CK input map". |
| NgDialectBuilder.ParamBindings | src/contrib/mlir/core/pass/ng_dialect_builder.cpp:168-176 | Every tensor the input-map loop binds is some parameter's output tensor 0, bound to that parameter's argument. |
| NgDialectBuilder.ParamBindingsExact | src/contrib/mlir/core/pass/ng_dialect_builder.cpp:168-176 | With distinct parameter tensors, each parameter's output tensor 0 is bound to exactly its own function argument. |
| NgDialectBuilder.NgDialectConversionPass.constructor | src/contrib/mlir/core/pass/ng_dialect_builder.cpp:60-63 | A new pass has an empty value map, no argument types, an empty body and no functions. |
| NgDialectBuilder.NgDialectConversionPass.GetTensorValue | src/contrib/mlir/core/pass/ng_dialect_builder.cpp:276-283 | getTensorValue succeeds iff the tensor is bound, and returns its value. Otherwise it fails with "Undefined tensor". |
| NgDialectBuilder.NgDialectConversionPass.UpdateTensorValue | src/contrib/mlir/core/pass/ng_dialect_builder.cpp:268-274 | Define-once: binding succeeds iff the tensor was unbound, and adds exactly that binding. Otherwise it fails with "tensor value already defined" and nothing changes. |
| NgDialectBuilder.NgDialectConversionPass.GetOriginArg | src/contrib/mlir/core/pass/ng_dialect_builder.cpp:198-203 | Returns the producer of the kernel input that the parameter's argument stands for. It fails when the parameter is not in the input map, or when that argument is out of range. |
| NgDialectBuilder.GenericOp | src/contrib/mlir/core/pass/ng_dialect_builder.cpp:634-661 | Lowering a node generically fails with "Undefined tensor" when one of the inputs it reads is unbound, then with an unsupported type when an output type does not convert. Otherwise it is one op reading those inputs' values in order, with one result type per output. |
| NgDialectBuilder.NgDialectConversionPass.CreateGenericOp | src/contrib/mlir/core/pass/ng_dialect_builder.cpp:634-661 | Succeeds iff GenericOp over the first ArgCount(inNum) inputs does, and fails with the same error. On success it appends exactly that op, which reads those inputs' values in order, has one result type per output and has no attributes. SSA is kept. |
| NgDialectBuilder.NgDialectConversionPass.CreateIndexReduction | src/contrib/mlir/core/pass/ng_dialect_builder.cpp:683-692 | Succeeds iff GenericOp over all inputs does, and then appends that op with the single attribute "axes", the i64 array [reduction axis]. |
| NgDialectBuilder.ReturnOp | src/contrib/mlir/core/pass/ng_dialect_builder.cpp:674-681 | The return fails with "Undefined tensor" exactly when some kernel output is unbound. Otherwise it has no results and reads the outputs' values in order. |
| NgDialectBuilder.NgDialectConversionPass.CreateReturn | src/contrib/mlir/core/pass/ng_dialect_builder.cpp:674-681 | Succeeds iff ReturnOp does, fails with its error, and on success appends exactly that return. |
| NgDialectBuilder.NgDialectConversionPass.Lower | src/contrib/mlir/core/pass/ng_dialect_builder.cpp:85-90 | The dispatched createOp succeeds iff LowerOp does, fails with its error, and on success appends exactly that op, with one result per node output. The primary template raises "Unimplemented op". |
| NgDialectBuilder.BindOutputs | src/contrib/mlir/core/pass/ng_dialect_builder.cpp:307-314 | Binding result i of an op to each output tensor fails with "tensor value already defined" on a tensor bound earlier. |
| NgDialectBuilder.BindOutputsOk | src/contrib/mlir/core/pass/ng_dialect_builder.cpp:307-314 | Binding a node's outputs succeeds iff its output tensors are distinct and none is already bound. The bound tensors are then exactly the old ones plus the outputs. |
| NgDialectBuilder.BindOutputsValues | src/contrib/mlir/core/pass/ng_dialect_builder.cpp:307-314 | After binding, every old binding is kept and output k is bound to result k of the op. |
| NgDialectBuilder.NgDialectConversionPass.BindResults | src/contrib/mlir/core/pass/ng_dialect_builder.cpp:307-314 | The updateTensorValue loop succeeds iff the outputs are distinct and unbound. On success the bound tensors are the old ones plus the outputs, and the map is BindOutputs of the old map: result i goes to output i, and no earlier binding changes. |
| NgDialectBuilder.BuildNodesShape | src/contrib/mlir/core/pass/ng_dialect_builder.cpp:293-316 | When every node lowers, there is one op per node after the existing ones, existing ops and bindings are kept, and output i of node k is bound to result i of op k. |
| NgDialectBuilder.BuildNodesNeedsDispatch | src/contrib/mlir/core/pass/ng_dialect_builder.cpp:293-300 | The node loop succeeds only if every node's identity is in the dispatcher. |
| NgDialectBuilder.BuildNodesUnsupportedNames | src/contrib/mlir/core/pass/ng_dialect_builder.cpp:293-300 | An unsupported_op failure names the identity of a node of the list. |
| NgDialectBuilder.NgDialectConversionPass.LowerNodes | src/contrib/mlir/core/pass/ng_dialect_builder.cpp:293-316 | The node loop succeeds iff BuildNodes over the node list does, fails with its error, and on success leaves exactly its map and body. |
| NgDialectBuilder.NgDialectConversionPass.BuildNgDialect | src/contrib/mlir/core/pass/ng_dialect_builder.cpp:288-317 | Succeeds iff Build (the node loop, then the return) does, fails with its error, and on success leaves exactly its map and body. Nodes are lowered in list order, and a node missing from the dispatcher fails with unsupported_op. On success there is one op per node followed by a return, and node k's output i is bound to result i of op k. Existing bindings never change, and SSA is kept. |
| NgDialectBuilder.NgDialectConversionPass.BindParameters | src/contrib/mlir/core/pass/ng_dialect_builder.cpp:168-176 | The input-map loop leaves the value map equal to ParamBindings. |
| NgDialectBuilder.ParamBindingsKeys | src/contrib/mlir/core/pass/ng_dialect_builder.cpp:168-176 | The input-map loop binds exactly the parameters' output tensors 0. |
| NgDialectBuilder.NgDialectConversionPass.CheckSignature | src/contrib/mlir/core/pass/ng_dialect_builder.cpp:148-159 | The input and output checks and the two type loops give exactly Signature: "Cannot have empty inputs list", then "Cannot have empty outputs list", then an unsupported type, else the kernel's input and output types in order. |
| NgDialectBuilder.NgDialectConversionPass.RunOnOperation | src/contrib/mlir/core/pass/ng_dialect_builder.cpp:143-181 | Succeeds iff Conversion of the kernel does, fails with its error, and on success leaves exactly its map and body. It fails on empty inputs or outputs. On success the module gains one function "main" whose argument and result types are those of the kernel inputs and outputs, in order. Its body is in SSA form and ends in the return, the parameter bindings survive, and every node output is bound to its op's result. |
| NgConversion.ReadCount | src/contrib/mlir/core/pass/ng_dialect_builder.cpp:642-650 | A lowering reads at most the node's inputs, and an index reduction reads all of them. |
| NgConversion.LowerOpOk | src/contrib/mlir/core/pass/ng_dialect_builder.cpp:634-661 | Lowering a node succeeds iff its lowering is implemented, the inputs it reads are bound and its output types convert. |
| NgConversion.LowerOpShape | src/contrib/mlir/core/pass/ng_dialect_builder.cpp:642-660 | A lowered op reads the values bound to the inputs it reads, in order, and has one result type per output. |
| NgConversion.NodeStepSpec | src/contrib/mlir/core/pass/ng_dialect_builder.cpp:296-314 | One iteration of the node loop succeeds iff the node is ready: dispatched, implemented, its read inputs bound, its output types converting and its outputs fresh. It then binds exactly its outputs. |
| NgConversion.BuildNodesIff | src/contrib/mlir/core/pass/ng_dialect_builder.cpp:293-316 | The node loop succeeds iff every node is ready once the nodes before it have run, and then binds exactly the initial tensors plus every node's outputs. |
| NgConversion.BuildIff | src/contrib/mlir/core/pass/ng_dialect_builder.cpp:293-317 | buildNgDialect succeeds iff the node loop does and every kernel output is bound by it. |
| NgConversion.ConversionSucceedsIff | src/contrib/mlir/core/pass/ng_dialect_builder.cpp:143-181 | runOnOperation succeeds iff the kernel has inputs and outputs, all their types convert, every node is ready in turn starting from the parameter tensors, and every kernel output is a parameter tensor or some node's output. |
| NgConversion.ConversionStopsAtUnsupported | src/contrib/mlir/core/pass/ng_dialect_builder.cpp:293-300 | If nodes 0..k-1 convert and node k's identity is not in the dispatcher, the conversion fails with unsupported_op naming node k. |
| NgConversion.BuildNodesOps | src/contrib/mlir/core/pass/ng_dialect_builder.cpp:301-314 | The op created for node k reads the values that nodes 0..k-1 (or the parameters) bound to the inputs it reads, and has one result type per output. |
| NgConversion.BuildReturns | src/contrib/mlir/core/pass/ng_dialect_builder.cpp:674-681 | The body ends in the return, which reads the value bound to each kernel output, in order. |

## Left out

- The MLIR library is reduced to opaque values. `OpBuilder::create`, `setAttr`, `NGTensorType::get`, `FuncOp::create`, insertion points and the pass framework are not modelled; created operations are appended to a list in creation order.
- The op-specific attributes set after `createGenericOp` are not modelled: Concat, Gather, Convolution, GroupConvolution, ConvolutionBias, AvgPool, AvgPoolBackprop, MaxPool, MaxPoolBackprop, MatMul, Gemm (including its floating-point alpha/beta) and Softmax's axes. Their generic part is `CreateGenericOp`. The helpers the Softmax lowering uses (`GetOriginArg`, `GetShapeAsAttr`) are modelled on their own.
- The dispatcher's contents come from `ops_supported.inc`, which is not part of this model. The dispatcher is a field of the pass mapping identities to a lowering.
- NgDialectBuilder.NgDialectConversionPass.RunOnOperation: requires a fresh pass (an empty value map), the state in which the pass is created and run. It also requires every argument index of the input map to be an argument of the new function, which MLIR's `getArgument` assumes.
- NgDialectBuilder.NgDialectConversionPass.Lower: the `if (op)` and `if (result)` null checks of `buildNgDialect` always pass in this model, because every modelled lowering returns an operation.
- The copy constructor, the pragmas and the debug macros are not modelled.
- The kernel's input map is an unordered map keyed by parameter node, and its iteration order is unspecified. Here it is a sequence visited in order. `NgDialectBuilder.ParamBindingsExact` shows that the order does not matter when the parameters' tensors are distinct.
- `LikeReplacement::run_on_function` reads the op list from `get_ops()`, which is not part of this model. The list is a parameter, holding node ids of the function in visiting order.
- `replace_node` (graph utilities) is not part of this model. It is modelled as: add the replacement to the arena and move every consumer of the old node onto it. The old node stays in the arena, without consumers.
- `ScalarConstantLike::as_constant()` is not part of this model. Its result is taken to be a `Constant` holding the scalar value, with the ScalarConstantLike's own shape and no inputs.
- The type infos of BroadcastLike, ScalarConstantLike, Broadcast, Constant, Parameter and Result are not part of this model. Version 0 is assumed, and only their distinctness matters.
- `like_replacement.cpp` declares the dispatcher twice, once at file scope (55-57) and once inside `run_on_function` (61-63). The two have identical contents; the model has one `Dispatcher`.
- `Atanh::evaluate` is a floating-point numeric kernel and is left out; so is the default constructor.
- The body of `Atanh::clone_with_new_inputs` and the constructor's validation (`UnaryElementwiseArithmetic`) are not part of this model. Cloning is modelled as nGraph's argument-count check followed by construction, which rejects a boolean argument as arithmetic elementwise ops do.
- `Function::get_output_op` and `Node::is_output` are not part of this model. They are modelled as indexing the function's list of Result nodes, and as the Result kind.
- The host tensor's `write`, `read` and `copy_to` are not part of this model. A range is in bounds when offset + length is at most the byte size; outside that, the operation reports OutOfBounds and changes nothing.
- Real device transfer between backends is left out. A tensor of any backend is a host byte buffer, and a copy between backends is staged through host memory.
- `element::Type::size()` is not part of this model. `ElementTypes.ByteWidth` gives the standard widths.
- The Liveness pass and the pass manager are not part of this model. From `TEST(tensor, output_flag)` only the output-flag postcondition is kept, as `LikeReplacement.PassKeepsOutputFlag`: a valid function's output ops report is_output() after a pass.
- The ONNX import layer (`onnx_utils.cpp`, `scatter_nd.cpp`) forwards to code that is not part of this model.
