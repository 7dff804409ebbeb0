# MaterialX shader generation core in Dafny

This project models the core of MaterialX's shader generator (MaterialXGenShader), plus the light registration of MaterialXRender that feeds it. It covers:

- **GenContext.** The generation context: the identifier registry with its collision-avoiding `makeIdentifier`, the node-implementation cache, the per-port input and output suffix tables, and the user-data stacks. The model holds two of those stacks: the active closure contexts and the light-shader registry.
- **ShaderGenerator.** The generic generator: the emission of function calls and definitions, variable and output declarations, upstream-result lookup, identifier reset, implementation lookup and caching, and the final token-substitution pass over a stage.
- **HwShaderGenerator.** The hardware generator:
  - the closure contexts (reflection, transmission, indirect, emission) and which contexts a node needs;
  - the closure-aware function call;
  - the texture, BSDF and EDF passes;
  - binding and unbinding light shaders;
  - `createShader`, which lays out the vertex and pixel stages. It adds the environment uniforms, publishes the editable graph interface, and converts unconnected filename inputs into public uniforms. It walks the root graph, the bound light graphs and every nested subgraph with a LIFO work queue.
- **LightHandler.** Finding the light nodes of a document, numbering their node definitions, and registering them with the context.

The generator's state is passed explicitly: every operation that changes a `GenContext` takes a `Context` value and returns a new one. Several collaborators become parameters of the model:

- the target language's syntax, as function-valued fields of `Syntax`;
- name sanitising;
- the token substitution of a stage;
- `ShaderNode::create`;
- the closure-usage and editability queries.

Iteration over an `unordered_map` has no defined order in the source. Where that order matters, the caller supplies an enumeration of the keys, and the contracts hold for every such enumeration.

Files:

- `base.dfy`: shared vocabulary.
- `gen_context.dfy`: the generation context.
- `stages.dfy`: variable blocks and stages.
- `shader_generator.dfy`: the generic generator.
- `hw_closure.dfy`: closure contexts and the hardware emission passes.
- `hw_lights.dfy`: the light-shader registry.
- `light_handler.dfy`: light registration.
- `hw_create.dfy`: hardware shader creation.

## Model

| member | source | states |
|---|---|---|
| GenContext.AddIdentifier | source/MaterialXGenShader/GenContext.cpp:27-39 | Succeeds exactly when the name is non-empty and not yet registered. Otherwise the error is a name conflict for that name. On success the name is added and the index grows by one. |
| GenContext.MakeIdentifier | source/MaterialXGenShader/GenContext.cpp:41-52 | The returned identifier was not registered before and is registered after. It is the sanitised name itself when that name was free. Otherwise it is the sanitised name plus the first counter value above the index whose candidate is free; every skipped candidate was already taken. The index strictly grows. |
| GenContext.ClearIdentifiers | source/MaterialXGenShader/GenContext.cpp:54-58 | Clearing forgets every reserved name and resets the counter, so any non-empty name can be added afterwards. |
| GenContext.ClearedAcceptsNonEmpty | source/MaterialXGenShader/GenContext.cpp:54-58 | After clearing, adding any non-empty name succeeds and leaves exactly that name with index 1; the empty name is still refused. |
| GenContext.AddNodeImplementation | source/MaterialXGenShader/GenContext.cpp:60-63 | The name maps to the new implementation; every other entry keeps its presence and value. |
| GenContext.FindNodeImplementation | source/MaterialXGenShader/GenContext.cpp:65-69 | Finds something exactly when the name is cached, and then returns the cached implementation. |
| GenContext.FindReturnsLatest | source/MaterialXGenShader/GenContext.cpp:60-69 | After any sequence of additions, lookup returns the implementation added last under that name, or nothing when none was added. |
| GenContext.AddInputSuffix | source/MaterialXGenShader/GenContext.cpp:81-84 | The input's suffix becomes the given one. Every other input's suffix is unchanged, and nothing in the context other than the input suffix table changes. |
| GenContext.RemoveInputSuffix | source/MaterialXGenShader/GenContext.cpp:86-89 | The input's suffix reads as empty afterwards. Every other input's suffix is unchanged, and nothing in the context other than the input suffix table changes. |
| GenContext.GetInputSuffix | source/MaterialXGenShader/GenContext.cpp:91-99 | The suffix stored for the input, or the empty string when the input has no entry. |
| GenContext.AddOutputSuffix | source/MaterialXGenShader/GenContext.cpp:101-104 | The output's suffix becomes the given one. Every other output's suffix is unchanged, and nothing in the context other than the output suffix table changes. |
| GenContext.RemoveOutputSuffix | source/MaterialXGenShader/GenContext.cpp:106-109 | The output's suffix reads as empty afterwards. Every other output's suffix is unchanged, and nothing in the context other than the output suffix table changes. |
| GenContext.GetOutputSuffix | source/MaterialXGenShader/GenContext.cpp:111-119 | The suffix stored for the output, or the empty string when the output has no entry. |
| Stages.AddVariable | source/MaterialXGenShader/HwShaderGenerator.cpp:218-221 | Adding a variable succeeds exactly when its name is new to the block, and otherwise fails with a duplicate-variable error naming the block and the variable. On success the variable is appended and the names stay unique. |
| Stages.AddVariables | source/MaterialXGenShader/HwShaderGenerator.cpp:247-251 | A run of additions succeeds exactly when the new names are pairwise distinct and none is already in the block. The variables are appended in order. An error names one of the added variables. |
| ShaderGenerator.EmitNodes | source/MaterialXGenShader/ShaderGenerator.cpp:107-123 | The emission loop asks every node, in stored order, for exactly one line. |
| ShaderGenerator.EmitFunctionCall | source/MaterialXGenShader/ShaderGenerator.cpp:92-105 | Emits a comment exactly when the scope check is on and the node is referenced only conditionally; otherwise emits the node implementation's call for that node, recording the context's active closure kind. |
| ShaderGenerator.EmitFunctionDefinitions | source/MaterialXGenShader/ShaderGenerator.cpp:107-114 | One definition per graph node, in graph order, each from that node's implementation. |
| ShaderGenerator.EmitFunctionCalls | source/MaterialXGenShader/ShaderGenerator.cpp:116-123 | One emitted call per graph node, in graph order, with the scope check on. |
| ShaderGenerator.DeclarationQualifier | source/MaterialXGenShader/ShaderGenerator.cpp:142-164 | A non-empty qualifier is prepended with one space to the unqualified declaration. Without qualifier or assignment, the declaration is the type name, a space and the variable, followed by the array suffix when the variable is an array with a value. |
| ShaderGenerator.DeclarationAssignment | source/MaterialXGenShader/ShaderGenerator.cpp:142-164 | A declaration with assignment is the plain declaration followed by " = " and the value literal. The literal is the variable's value if it has one, else the type default. Nothing is appended when the literal is empty. |
| ShaderGenerator.OutputDeclarationType | source/MaterialXGenShader/ShaderGenerator.cpp:184-204 | Including the type prepends the type name and a space. The bare form is the output variable followed by its context suffix. |
| ShaderGenerator.OutputDeclarationAssignment | source/MaterialXGenShader/ShaderGenerator.cpp:184-204 | Assigning appends " = " and the type's default value unless that default is empty. |
| ShaderGenerator.UpstreamUnconnected | source/MaterialXGenShader/ShaderGenerator.cpp:206-228 | An unconnected input's result ignores the context. It is the input's value literal, or the type default when it has no value. |
| ShaderGenerator.UpstreamConnected | source/MaterialXGenShader/ShaderGenerator.cpp:206-228 | A connected input's result is its result without a suffix followed by the input's context suffix. Without a suffix it is the upstream variable when no channels are given, and otherwise the syntax's swizzle of the upstream variable from its type to the input's type by those channels. Setting a suffix appends exactly that suffix. |
| ShaderGenerator.AddIdentifiers | source/MaterialXGenShader/ShaderGenerator.cpp:230-250 | Registering a list of names succeeds exactly when the names are pairwise distinct, non-empty and not yet registered. It adds all of them and raises the index by their count. |
| ShaderGenerator.ResetIdentifiers | source/MaterialXGenShader/ShaderGenerator.cpp:230-250 | After reset the registry holds exactly the restricted names plus the non-empty token substitution values. The reset fails with a name conflict exactly when those are not pairwise distinct and non-empty. Nothing else in the context changes. |
| ShaderGenerator.NewContext | source/MaterialXGenShader/GenContext.cpp:16-25 | Creating a context without a generator is a configuration error. With a generator, creation succeeds exactly when the restricted names and the non-empty token substitution values are together pairwise distinct and non-empty; otherwise it fails with a name conflict. The new index is their count. A new context has an empty implementation cache, empty input and output suffix tables, no closure or light data, the given options, and the generator's reserved identifiers. |
| ShaderGenerator.GetImplementation | source/MaterialXGenShader/ShaderGenerator.cpp:262-298 | A cached implementation is returned with the context unchanged. Otherwise a node graph yields a compound implementation, and an implementation element yields a factory implementation when one is registered, else a source-code one; the result is cached under the element's name. Any other element kind is an invalid-element error. |
| ShaderGenerator.GetImplementationCached | source/MaterialXGenShader/ShaderGenerator.cpp:262-298 | Looking up the same element again in the returned context returns the same implementation and does not change the context. |
| ShaderGenerator.ReplaceTokens | source/MaterialXGenShader/ShaderGenerator.cpp:305-352 | Substitution rewrites the text of every comment and statement line, and the name and identifier of every variable in the constant, uniform, input and output blocks. Lines emitted by node implementations, block names, instances, variable types, values and paths are kept. |
| ShaderGenerator.ReplaceTokensIdempotent | source/MaterialXGenShader/ShaderGenerator.cpp:305-352 | With an idempotent substitution, running the pass twice equals running it once. |
| ShaderGenerator.ReplaceTokensNoTokens | source/MaterialXGenShader/ShaderGenerator.cpp:305-352 | The pass leaves a stage unchanged exactly when the substitution changes none of the stage's comment and statement texts and none of its variable names and identifiers. |
| HwClosure.DefinedContextsDistinct | source/MaterialXGenShader/HwShaderGenerator.cpp:183-201 | The four defined closure contexts have pairwise distinct function suffixes, and only emission has the empty suffix. Each takes at least one extra argument, and every extra argument is a vector3. |
| HwClosure.GetNodeClosureContexts | source/MaterialXGenShader/HwShaderGenerator.cpp:529-557 | The contexts a node needs, by classification. A reflection-only BSDF gets reflection and indirect. A transmission-only BSDF gets transmission. Any other BSDF gets reflection, transmission and indirect. An EDF gets emission. Anything else gets none. |
| HwClosure.ContextsAgreeWithMatch | source/MaterialXGenShader/HwShaderGenerator.cpp:364-383 | For a node that is not both BSDF and EDF, and not flagged both reflection-only and transmission-only, a context kind is among its contexts exactly when the call-time match rule accepts it in that kind. |
| HwClosure.BothDirectionsNeverMatch | source/MaterialXGenShader/HwShaderGenerator.cpp:364-383 | A BSDF flagged both reflection-only and transmission-only is given the reflection and indirect contexts. The call-time match rule rejects it in reflection, indirect and transmission. |
| HwClosure.HwEmitFunctionCall | source/MaterialXGenShader/HwShaderGenerator.cpp:354-401 | Emits a comment exactly when skipped by scope. It emits the implementation's call exactly when not skipped and the node is not a closure or matches the active closure context. Otherwise it emits the output declared with its type and default value. |
| HwClosure.HwCallRefinesBase | source/MaterialXGenShader/HwShaderGenerator.cpp:354-401 | With no active closure context, or for a non-closure node, the hardware call equals the generic one. |
| HwClosure.EmitGraphFunctionCalls | source/MaterialXGenShader/ShaderGenerator.cpp:116-123 | Emits one call per node in graph order, using the hardware call for a hardware generator and the generic call otherwise. |
| HwClosure.EmitTextureNodes | source/MaterialXGenShader/HwShaderGenerator.cpp:403-420 | Emits the texture nodes that are not conditionally scoped, in graph order, without the scope check. A line break follows exactly when there was at least one. |
| HwClosure.EmitClosureNodes | source/MaterialXGenShader/HwShaderGenerator.cpp:422-472 | The shared body of the BSDF and EDF passes: with the closure context pushed, emits the hardware call of each used node of the classification, in graph order. The result is the last such node's output variable, or the type default when there is none, and the context is restored. |
| HwClosure.EmitBsdfNodes | source/MaterialXGenShader/HwShaderGenerator.cpp:422-446 | Emits the used BSDF nodes in graph order with the given closure context active, and restores the context. The result is the last such node's output variable, or the BSDF default when there is none. |
| HwClosure.EmitEdfNodes | source/MaterialXGenShader/HwShaderGenerator.cpp:448-472 | Emits the used EDF nodes in graph order with the given closure context active, and restores the context. The result is the last such node's output variable, or the EDF default when there is none. |
| HwClosure.ClosurePassDispatch | source/MaterialXGenShader/HwShaderGenerator.cpp:364-399 | Inside a closure pass, a closure node's call is emitted exactly when it matches the pass's kind, and it records that kind as active. Otherwise its output is declared with the default value. |
| HwLights.PrefixSockets | source/MaterialXGenShader/HwShaderGenerator.cpp:496-506 | Every input socket of a light graph gets its variable prefixed with the light structure name; everything else is unchanged. |
| HwLights.BindLightShader | source/MaterialXGenShader/HwShaderGenerator.cpp:474-509 | A node definition that is not of light-shader type is a type error. Binding fails exactly when the id is already bound, with a duplicate-binding error for that id. On success the id maps to the created node, with its graph sockets prefixed, the registry is created on first use, and only the light data changes. |
| HwLights.UnbindLightShader | source/MaterialXGenShader/HwShaderGenerator.cpp:511-518 | Removes exactly that id from the bindings; without a registry nothing changes. |
| HwLights.UnbindLightShaders | source/MaterialXGenShader/HwShaderGenerator.cpp:520-527 | Leaves no binding; without a registry nothing changes. |
| HwLights.BindThenUnbind | source/MaterialXGenShader/HwShaderGenerator.cpp:474-518 | Unbinding an id just bound restores the previous bindings. |
| HwLights.RebindFails | source/MaterialXGenShader/HwShaderGenerator.cpp:488-491 | Once an id is bound, binding any light-shader definition to it again fails with a duplicate-binding error. |
| LightHandler.FindLights | source/MaterialXRender/LightHandler.cpp:44-55 | A node is found exactly when it is a document node of light-shader type. |
| LightHandler.LightsInConcat | source/MaterialXRender/LightHandler.cpp:44-55 | Filtering a concatenation of node lists gives the concatenation of the filtered lists, so document order is kept. |
| LightHandler.MapNodeDefToIdentifiers | source/MaterialXRender/LightHandler.cpp:26-42 | Every node definition of the nodes gets an id and existing ids are kept. The definitions not yet numbered get ids 1, 2, … in order of first occurrence. |
| LightHandler.FirstNumberingDense | source/MaterialXRender/LightHandler.cpp:26-42 | Numbering from an empty map assigns the ids 1 to n to exactly the n node definitions, without repetition. |
| LightHandler.NumberingCollides | source/MaterialXRender/LightHandler.cpp:29-39 | Numbering a new definition into a map that already holds id 1 assigns id 1 again, so ids are no longer unique. |
| LightHandler.MapNodeDefToIdentifiersContinuing | source/MaterialXRender/LightHandler.cpp:26-42 | Corrected numbering: new definitions continue after the existing entries, in order of first occurrence; existing ids are kept. |
| LightHandler.ContinuingPreservesDense | source/MaterialXRender/LightHandler.cpp:26-42 | If the ids are exactly 1 to n without repetition, the corrected numbering keeps that true for the enlarged map. |
| LightHandler.BindAll | source/MaterialXRender/LightHandler.cpp:68-75 | The bound ids become exactly the old ones plus the ids of the enumerated names that have a definition, and old bindings are kept. Each such id maps to the instantiated light node. A failure is a type error or a duplicate binding of one of those ids, and with well-typed definitions it is a duplicate binding. |
| LightHandler.BindAllOkIff | source/MaterialXRender/LightHandler.cpp:68-75 | Binding all succeeds exactly when every enumerated definition is a light shader and their ids are pairwise distinct and not already bound. |
| LightHandler.RegisterLights | source/MaterialXRender/LightHandler.cpp:57-84 | Old bindings are cleared. With no lights, the ids are unchanged and no binding is left. Otherwise the node definitions are renumbered, and registration succeeds exactly when the renumbered definitions can all be bound. On success each id maps to its light node. The maximum active light count becomes the larger of its old value and the 32-bit light count. Nothing else in the context changes. |
| LightHandler.RaiseLightCount | source/MaterialXRender/LightHandler.cpp:78-83 | The maximum light count becomes the larger of its old value and the light count truncated to 32 bits; no other field changes. |
| LightHandler.RegistrationCollides | source/MaterialXRender/LightHandler.cpp:57-84 | Registering light "a" and then, with the same id map, light "b" of a new definition makes the second registration fail with a duplicate binding of id 1, whatever the map's iteration order. |
| LightHandler.ContinuingRegistrationSucceeds | source/MaterialXRender/LightHandler.cpp:57-84 | With the corrected numbering and well-typed light definitions, registration always succeeds and the ids stay exactly 1 to n without repetition. |
| HwCreateShader.NodesSplit | source/MaterialXGenShader/HwShaderGenerator.cpp:318-342 | The filename inputs reachable from a node list are the list's own file-texture filename inputs plus those reachable from the nodes' subgraphs. |
| HwCreateShader.WalkElements | source/MaterialXGenShader/HwShaderGenerator.cpp:313-343 | The order in which the LIFO work queue visits filename inputs covers exactly the unconnected filename inputs of file-texture nodes in the queued graphs and in every graph nested in them. |
| HwCreateShader.WalkQueue | source/MaterialXGenShader/HwShaderGenerator.cpp:313-343 | The loop fails exactly when adding the walk's uniforms one at a time to the block is refused at some input, and then with that refusal's error. On success the block is the result of those additions and the rewrites are the walk's inputs' rewrites in visiting order. |
| HwCreateShader.ConvertFilenameInputs | source/MaterialXGenShader/HwShaderGenerator.cpp:292-343 | The conversion succeeds exactly when adding the uniforms of the walk's inputs, in visiting order, to the public block succeeds. Then the block is exactly that run's result and the rewrites are the walk's. Otherwise the error is the run's, a duplicate-variable error for one of the reachable inputs. The existing uniforms stay a prefix. The appended uniforms are exactly the filename uniforms of the unconnected filename inputs of file-texture nodes reachable from the roots through subgraphs. The value rewrites are exactly those of the same inputs, and unique names are preserved. |
| HwCreateShader.PublishInterface | source/MaterialXGenShader/HwShaderGenerator.cpp:254-343 | The public block is built exactly when the published socket names and the walk's filename uniform names are together pairwise distinct. It is then the published ports followed by the walk's uniforms, in order, with unique names. Otherwise the error is a duplicate variable in the public block. |
| HwCreateShader.VertexStageBuilt | source/MaterialXGenShader/HwShaderGenerator.cpp:210-221 | The vertex stage's input and private uniform blocks are what adding the position, and then the world and view-projection matrices, to freshly created blocks yields. None of these additions is refused, and every block of the stage has unique variable names. |
| HwCreateShader.Published | source/MaterialXGenShader/HwShaderGenerator.cpp:254-263 | A socket's port is published exactly when the socket is connected internally and editable. |
| HwCreateShader.LightGraphs | source/MaterialXGenShader/HwShaderGenerator.cpp:298-311 | The light graphs queued are exactly the implementation graphs of the bound light nodes. |
| HwCreateShader.CreateShader | source/MaterialXGenShader/HwShaderGenerator.cpp:204-352 | Creation succeeds exactly when the names of the published sockets and of the filename uniforms along the walk are together pairwise distinct; otherwise it fails with a duplicate variable in the public block. The result has the vertex stage above, and a pixel stage with private, public and light-data uniform blocks. Private uniforms hold the five environment uniforms exactly when the graph is lit and an environment method is set. The public block begins with the published sockets, followed by exactly the filename uniforms of the root and light graphs. Each converted input is rewritten and has exactly one uniform of its name. The output is a color4 copy of the graph output, and the shader is transparent exactly when the option is set. |
| HwCreateShader.FilenameRoundTrip | source/MaterialXGenShader/HwShaderGenerator.cpp:327-332 | After creation, every converted filename input's new value is its own variable name, and exactly one public uniform carries that name: the filename uniform made from that input. |

## Left out

- Text output: stage code is a list of opaque lines. Indentation, scopes, includes, and the bodies emitted by node implementations are not modelled.
- ShaderGenerator.ReplaceTokens: the text that node implementations emit (the call and definition lines) is opaque in the model, so the pass leaves those lines as they are. The source substitutes tokens in the whole code string, that text included.
- ShaderGenerator.GetImplementation: the implementation's `initialize(element, context)` step (ShaderGenerator.cpp:292) is not modelled. The model neither changes the context there nor fails there, while the source's initialization may do both before the implementation is cached.
- Floating point: the environment rotation matrix is an opaque matrix value.
- Per-node variable creation (`createVariables`) is implementation-specific code that is not part of this model. So are ShaderGraph construction, `ShaderNode::create`, name sanitising and the target syntax: they are parameters.
- The stage connector block (`addStageConnectorBlock`) lives in ShaderStage.cpp, which this model does not cover. It is modelled as an empty vertex-data block, an output of the vertex stage and an input of the pixel stage.
- `VariableBlock::add` lives in ShaderStage.cpp, which this model does not cover. The model makes a block refuse a variable whose name it already holds, with an error, so that names in a block stay unique.
- Iteration order of unordered maps (the light identifier map and the bound light shaders) is a caller-supplied enumeration rather than a hash order.
- LightHandler.RegisterLights: when a binding fails, the source has already changed the id map and some bindings before it throws; the model returns only the error.
- HwCreateShader.HwTokenSubstitutions: the table of hardware token substitutions is kept as data; that its values are pairwise distinct is not proved.
- GenContext.MakeIdentifier: the identifier index is an unbounded natural number, not a 32-bit counter.
- GenContext.MakeIdentifier: the returned name can be empty, when the sanitised name is empty and the empty name is free. The model keeps this case as the code has it.
- HwCreateShader.Subgraphs: the work queue is not deduplicated. Implementations are cached per element name (ShaderGenerator.cpp:262-298), so two nodes of one node graph definition share a single subgraph, and the queue takes it once per node. The model walks its filename inputs again, refuses their second additions to the public block, and so fails `createShader` for such a material when the shared graph holds a file texture. Whether the source fails too depends on `VariableBlock::add` in ShaderStage.cpp, which is not part of this model.
- Integer widths are modelled only for the light count, which is truncated to 32 bits.
- `LightHandler::addLightSource` and the light-source list accessors only store nodes and are not modelled.
- The remaining GenContext user-data operations (`clearUserData`, and `getUserData` for other keys) are not modelled: only the closure stack and the light registry are used by the core.

## Findings

| source | as written | input that shows it | evidently intended | confidence | as-written member | corrected member |
|---|---|---|---|---|---|---|
| source/MaterialXRender/LightHandler.cpp:29-39 | The id counter starts at 1 on every call, but the id map it extends persists across `registerLights` calls. | Register a document's light "a" (definition ND_a gets id 1), then register light "b" with a new definition ND_b: ND_b also gets id 1, and binding fails with a duplicate binding of id 1. | New definitions continue after the ids already in the map, so ids stay unique. | not executed | LightHandler.RegistrationCollides | LightHandler.ContinuingRegistrationSucceeds |
