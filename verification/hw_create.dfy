/**
 Shader creation of the hardware generator: the vertex and pixel stages
 with their fixed blocks, the environment-lighting uniforms, the published
 graph interface, the conversion of file-texture filename inputs into
 public texture uniforms over the root graph, the light graphs and every
 nested graph, and the transparency attribute.
 */
module HwCreateShader {
  import opened Base
  import opened GenContext
  import opened Stages
  import opened HwLights
  import opened ShaderGenerator

  // ---------------------------------------------------------------------------
  // Filename inputs of nested graphs
  // ---------------------------------------------------------------------------

  /** An input that becomes a texture uniform: an unconnected filename input of a file-texture node. */
  predicate IsFileInput(node: Node, i: Input) {
    HasClassification(node.flags, {FILETEXTURE}) && i.connection.None? && i.port.ptype == FILENAME
  }

  /** The filename inputs of a node that become uniforms, in input order. */
  function FileInputsOf(node: Node, inputs: seq<Input>): (r: seq<Input>)
    ensures forall i :: i in r <==> i in inputs && IsFileInput(node, i)
  {
    if inputs == [] then []
    else
      var init := inputs[..|inputs| - 1];
      var last := inputs[|inputs| - 1];
      assert forall i :: i in inputs <==> i in init || i == last;
      var rest := FileInputsOf(node, init);
      if IsFileInput(node, last) then rest + [last] else rest
  }

  /** The filename inputs, node by node, of a sequence of nodes, without descending into their graphs. */
  function LocalInputs(nodes: seq<Node>): seq<Input> {
    if nodes == [] then [] else FileInputsOf(nodes[0], nodes[0].inputs) + LocalInputs(nodes[1..])
  }

  /** The graphs owned by the implementations of a sequence of nodes, in node order. */
  function Subgraphs(nodes: seq<Node>): seq<Graph> {
    if nodes == [] then []
    else (if nodes[0].subgraph.Some? then [nodes[0].subgraph.value] else []) + Subgraphs(nodes[1..])
  }

  /** Every filename input that becomes a uniform, in a graph and in all the graphs nested in it. */
  function GraphFileInputs(g: Graph): set<Input>
    decreases g
  {
    NodesFileInputs(g.nodes)
  }

  function NodesFileInputs(nodes: seq<Node>): set<Input>
    decreases nodes
  {
    if nodes == [] then {} else NodeFileInputs(nodes[0]) + NodesFileInputs(nodes[1..])
  }

  function NodeFileInputs(n: Node): set<Input>
    decreases n
  {
    Elements(FileInputsOf(n, n.inputs)) + match n.subgraph { case None => {} case Some(g) => GraphFileInputs(g) }
  }

  /** The number of graphs and nodes in a graph, nested ones included. */
  function GraphSize(g: Graph): nat
    decreases g
  {
    1 + NodesSize(g.nodes)
  }

  function NodesSize(nodes: seq<Node>): nat
    decreases nodes
  {
    if nodes == [] then 0 else NodeSize(nodes[0]) + NodesSize(nodes[1..])
  }

  function NodeSize(n: Node): nat
    decreases n
  {
    match n.subgraph { case None => 1 case Some(g) => 1 + GraphSize(g) }
  }

  /** The filename inputs of all graphs of a work queue. */
  function QueueFileInputs(queue: seq<Graph>): set<Input> {
    if queue == [] then {} else QueueFileInputs(queue[..|queue| - 1]) + GraphFileInputs(queue[|queue| - 1])
  }

  /** The total size of the graphs of a work queue. */
  function QueueSize(queue: seq<Graph>): nat {
    if queue == [] then 0 else QueueSize(queue[..|queue| - 1]) + GraphSize(queue[|queue| - 1])
  }

  /** Queues concatenate: inputs and sizes add up. */
  lemma {:induction false} QueueConcat(a: seq<Graph>, b: seq<Graph>)
    ensures QueueFileInputs(a + b) == QueueFileInputs(a) + QueueFileInputs(b)
    ensures QueueSize(a + b) == QueueSize(a) + QueueSize(b)
    decreases |b|
  {
    if b == [] {
      assert a + b == a;
    } else {
      var b' := b[..|b| - 1];
      assert (a + b)[..|a + b| - 1] == a + b';
      assert (a + b)[|a + b| - 1] == b[|b| - 1];
      QueueConcat(a, b');
    }
  }

  /**
   Processing the nodes of a graph accounts for all of its filename inputs:
   those of its own nodes, and those of the graphs it hands on to the
   queue, which are smaller in total than the graph.
   */
  lemma {:induction false} NodesSplit(nodes: seq<Node>)
    ensures NodesFileInputs(nodes) == Elements(LocalInputs(nodes)) + QueueFileInputs(Subgraphs(nodes))
    ensures NodesSize(nodes) == |nodes| + QueueSize(Subgraphs(nodes))
    decreases nodes
  {
    if nodes != [] {
      var n := nodes[0];
      var rest := nodes[1..];
      NodesSplit(rest);
      var own: seq<Graph> := if n.subgraph.Some? then [n.subgraph.value] else [];
      QueueConcat(own, Subgraphs(rest));
      if n.subgraph.Some? {
        assert own[..0] == [];
      }
      var local := FileInputsOf(n, n.inputs);
      assert Elements(local + LocalInputs(rest)) == Elements(local) + Elements(LocalInputs(rest));
    }
  }

  // ---------------------------------------------------------------------------
  // Converting filename inputs into uniforms
  // ---------------------------------------------------------------------------

  /** The public uniform created for a filename input: named after the input's variable, of filename type. */
  function Uniform(i: Input): (v: Variable)
    ensures v.name == i.port.variable && v.variable == i.port.variable && v.vtype == FILENAME
    ensures v.value == i.port.value && v.path == i.port.path
  {
    Variable(i.port.variable, i.port.variable, FILENAME, i.port.value, i.port.path)
  }

  /** The new value of a converted input: the name of its uniform, keyed by the input's port. */
  function Rewrite(i: Input): (w: (nat, Value))
    ensures w.0 == i.port.id && w.1 == StringValue(Uniform(i).name)
  {
    (i.port.id, StringValue(i.port.variable))
  }

  function Uniforms(xs: seq<Input>): (r: seq<Variable>)
    ensures |r| == |xs| && forall k :: 0 <= k < |xs| ==> r[k] == Uniform(xs[k])
  {
    seq(|xs|, k requires 0 <= k < |xs| => Uniform(xs[k]))
  }

  function Rewrites(xs: seq<Input>): (r: seq<(nat, Value)>)
    ensures |r| == |xs| && forall k :: 0 <= k < |xs| ==> r[k] == Rewrite(xs[k])
  {
    seq(|xs|, k requires 0 <= k < |xs| => Rewrite(xs[k]))
  }

  /** The uniforms for a set of filename inputs. */
  function UniformSet(inputs: set<Input>): set<Variable> {
    set i | i in inputs :: Uniform(i)
  }

  /** The value rewrites for a set of filename inputs. */
  function RewriteSet(inputs: set<Input>): set<(nat, Value)> {
    set i | i in inputs :: Rewrite(i)
  }

  lemma SetUnion(a: set<Input>, b: set<Input>)
    ensures UniformSet(a + b) == UniformSet(a) + UniformSet(b)
    ensures RewriteSet(a + b) == RewriteSet(a) + RewriteSet(b)
  {
  }

  lemma UniformsElements(xs: seq<Input>)
    ensures Elements(Uniforms(xs)) == UniformSet(Elements(xs))
    ensures Elements(Rewrites(xs)) == RewriteSet(Elements(xs))
  {
    forall v | v in Elements(Uniforms(xs)) ensures v in UniformSet(Elements(xs)) {
      var k :| 0 <= k < |xs| && Uniforms(xs)[k] == v;
      assert xs[k] in Elements(xs);
    }
    forall w | w in Elements(Rewrites(xs)) ensures w in RewriteSet(Elements(xs)) {
      var k :| 0 <= k < |xs| && Rewrites(xs)[k] == w;
      assert xs[k] in Elements(xs);
    }
  }

  /**
   One step of the worklist: taking the last graph off the queue and
   queueing its nodes' graphs keeps the pending filename inputs, minus the
   graph's own, and shrinks the queue.
   */
  lemma QueueStep(queue: seq<Graph>)
    requires queue != []
    ensures var g := queue[|queue| - 1];
      QueueFileInputs(queue) == Elements(LocalInputs(g.nodes)) + QueueFileInputs(queue[..|queue| - 1] + Subgraphs(g.nodes))
    ensures var g := queue[|queue| - 1];
      QueueSize(queue[..|queue| - 1] + Subgraphs(g.nodes)) < QueueSize(queue)
  {
    var g := queue[|queue| - 1];
    NodesSplit(g.nodes);
    QueueConcat(queue[..|queue| - 1], Subgraphs(g.nodes));
  }

  /**
   The filename inputs in the order the worklist visits them: the last
   graph of the queue is taken off, its own inputs come first, and its
   nodes' graphs are queued behind the remaining ones.
   */
  function Walk(queue: seq<Graph>): seq<Input>
    decreases QueueSize(queue)
  {
    if queue == [] then []
    else
      var g := queue[|queue| - 1];
      QueueStep(queue);
      LocalInputs(g.nodes) + Walk(queue[..|queue| - 1] + Subgraphs(g.nodes))
  }

  /** The walk visits exactly the filename inputs of the queued graphs and of all graphs nested in them. */
  lemma {:induction false} WalkElements(queue: seq<Graph>)
    ensures Elements(Walk(queue)) == QueueFileInputs(queue)
    decreases QueueSize(queue)
  {
    if queue != [] {
      var g := queue[|queue| - 1];
      var rest := queue[..|queue| - 1] + Subgraphs(g.nodes);
      QueueStep(queue);
      WalkElements(rest);
      assert Elements(LocalInputs(g.nodes) + Walk(rest)) == Elements(LocalInputs(g.nodes)) + Elements(Walk(rest));
    }
  }

  /** The uniforms of a concatenation are the uniforms of its parts, and so are the rewrites. */
  lemma UniformsConcat(xs: seq<Input>, ys: seq<Input>)
    ensures Uniforms(xs + ys) == Uniforms(xs) + Uniforms(ys)
    ensures Rewrites(xs + ys) == Rewrites(xs) + Rewrites(ys)
  {
  }

  /** The uniforms appended to the public block and the input values rewritten. */
  datatype Conversion = Conversion(uniforms: VariableBlock, rewrites: seq<(nat, Value)>)

  /**
   The worklist pass: graphs are taken from the back of the queue; every
   filename input of a graph's file-texture nodes becomes a public uniform
   and gets the uniform's name as its value, and the graphs of the nodes'
   implementations are queued in turn. The pass adds the uniforms of the
   walk to the block in visiting order, so it succeeds exactly when that
   run of additions does, and otherwise fails with the error of the first
   refused addition.
   */
  method ConvertFilenameInputs(roots: seq<Graph>, block: VariableBlock) returns (r: Result<Conversion>)
    ensures r.Ok? <==> AddVariables(block, Uniforms(Walk(roots))).Ok?
    ensures r.Ok? ==> r.value.uniforms == AddVariables(block, Uniforms(Walk(roots))).value
    ensures r.Ok? ==> r.value.rewrites == Rewrites(Walk(roots))
    ensures r.Err? ==> r.error == AddVariables(block, Uniforms(Walk(roots))).error
    ensures r.Ok? ==> r.value.uniforms.name == block.name && r.value.uniforms.instance == block.instance
    ensures r.Ok? ==> |block.vars| <= |r.value.uniforms.vars| && r.value.uniforms.vars[..|block.vars|] == block.vars
    ensures r.Ok? ==> Elements(r.value.uniforms.vars[|block.vars|..]) == UniformSet(QueueFileInputs(roots))
    ensures r.Ok? ==> Elements(r.value.rewrites) == RewriteSet(QueueFileInputs(roots))
    ensures r.Ok? && UniqueNames(block) ==> UniqueNames(r.value.uniforms)
    ensures r.Err? ==> exists i :: i in QueueFileInputs(roots) && r.error == DuplicateVariable(block.name, i.port.variable)
  {
    r := WalkQueue(roots, block);
    AddUniformsIsAdd(block, Walk(roots));
    ConversionFacts(roots, block);
  }

  /** The worklist loop itself: the uniforms of the walk added one at a time, and the rewrites of the walk. */
  method WalkQueue(roots: seq<Graph>, block: VariableBlock) returns (r: Result<Conversion>)
    ensures r.Ok? <==> AddUniforms(block, Walk(roots)).Ok?
    ensures r.Ok? ==> r.value.uniforms == AddUniforms(block, Walk(roots)).value
    ensures r.Ok? ==> r.value.rewrites == Rewrites(Walk(roots))
    ensures r.Err? ==> r.error == AddUniforms(block, Walk(roots)).error
  {
    var queue := roots;
    var acc := block;
    var log: seq<(nat, Value)> := [];
    while queue != []
      invariant AddUniforms(block, Walk(roots)) == AddUniforms(acc, Walk(queue))
      invariant Rewrites(Walk(roots)) == log + Rewrites(Walk(queue))
      decreases QueueSize(queue)
    {
      var g := queue[|queue| - 1];
      var local := LocalInputs(g.nodes);
      var rest := queue[..|queue| - 1] + Subgraphs(g.nodes);
      var added := AddUniforms(acc, local);
      WalkUnfold(queue);
      AddUniformsConcat(acc, local, Walk(rest));
      if added.Err? {
        return Err(added.error);
      }
      RewritesAdvance(log, local, Walk(rest));
      acc := added.value;
      log := log + Rewrites(local);
      queue := rest;
    }
    return Ok(Conversion(acc, log));
  }

  /** Moving one graph's rewrites from the pending walk into the log. */
  lemma RewritesAdvance(log: seq<(nat, Value)>, local: seq<Input>, rest: seq<Input>)
    ensures log + Rewrites(local + rest) == (log + Rewrites(local)) + Rewrites(rest)
  {
    UniformsConcat(local, rest);
  }

  /** The walk of a non-empty queue: the last graph's own inputs, then the walk of what it leaves queued. */
  lemma WalkUnfold(queue: seq<Graph>)
    requires queue != []
    ensures var g := queue[|queue| - 1];
      var rest := queue[..|queue| - 1] + Subgraphs(g.nodes);
      QueueSize(rest) < QueueSize(queue) && Walk(queue) == LocalInputs(g.nodes) + Walk(rest)
  {
    QueueStep(queue);
  }

  /** Adds the uniform of each input in turn, stopping at the first one the block refuses. */
  function AddUniforms(b: VariableBlock, xs: seq<Input>): Result<VariableBlock>
    decreases |xs|
  {
    if xs == [] then Ok(b)
    else
      match AddVariable(b, Uniform(xs[0]))
      case Err(e) => Err(e)
      case Ok(next) => AddUniforms(next, xs[1..])
  }

  /** Adding the uniforms one at a time is adding the sequence of uniforms as a run. */
  lemma {:induction false} AddUniformsIsAdd(b: VariableBlock, xs: seq<Input>)
    ensures AddUniforms(b, xs) == AddVariables(b, Uniforms(xs))
    decreases |xs|
  {
    if xs != [] {
      assert Uniforms(xs)[0] == Uniform(xs[0]);
      assert Uniforms(xs)[1..] == Uniforms(xs[1..]);
      match AddVariable(b, Uniform(xs[0]))
      case Err(_) =>
      case Ok(next) => AddUniformsIsAdd(next, xs[1..]);
    }
  }

  /** Adding the uniforms of a concatenation: the first part, then, unless it was refused, the second. */
  lemma {:induction false} AddUniformsConcat(b: VariableBlock, xs: seq<Input>, ys: seq<Input>)
    ensures AddUniforms(b, xs).Err? ==> AddUniforms(b, xs + ys) == AddUniforms(b, xs)
    ensures AddUniforms(b, xs).Ok? ==> AddUniforms(b, xs + ys) == AddUniforms(AddUniforms(b, xs).value, ys)
    decreases |xs|
  {
    if xs == [] {
      assert xs + ys == ys;
    } else {
      assert (xs + ys)[0] == xs[0];
      assert (xs + ys)[1..] == xs[1..] + ys;
      match AddVariable(b, Uniform(xs[0]))
      case Err(_) =>
      case Ok(next) => AddUniformsConcat(next, xs[1..], ys);
    }
  }

  /** What the walk's run of additions means for the set of reachable filename inputs. */
  lemma ConversionFacts(roots: seq<Graph>, block: VariableBlock)
    ensures var a := AddVariables(block, Uniforms(Walk(roots)));
      a.Ok? ==>
        && |block.vars| <= |a.value.vars| && a.value.vars[..|block.vars|] == block.vars
        && Elements(a.value.vars[|block.vars|..]) == UniformSet(QueueFileInputs(roots))
        && Elements(Rewrites(Walk(roots))) == RewriteSet(QueueFileInputs(roots))
    ensures var a := AddVariables(block, Uniforms(Walk(roots)));
      a.Err? ==> exists i :: i in QueueFileInputs(roots) && a.error == DuplicateVariable(block.name, i.port.variable)
  {
    var w := Walk(roots);
    var a := AddVariables(block, Uniforms(w));
    WalkElements(roots);
    UniformsElements(w);
    if a.Ok? {
      assert a.value.vars[|block.vars|..] == Uniforms(w);
    } else {
      var k :| 0 <= k < |Uniforms(w)| && a.error == DuplicateVariable(block.name, Uniforms(w)[k].name);
      assert w[k] in Elements(w);
    }
  }

  // ---------------------------------------------------------------------------
  // Stages and blocks
  // ---------------------------------------------------------------------------

  const VERTEX_INPUTS := "VertexInputs"
  const VERTEX_DATA := "VertexData"
  const PRIVATE_UNIFORMS := "PrivateUniforms"
  const PUBLIC_UNIFORMS := "PublicUniforms"
  const LIGHT_DATA := "LightData"
  const PIXEL_OUTPUTS := "PixelOutputs"
  const ATTR_TRANSPARENT := "transparent"

  /** The hardware token table: each token and the identifier it becomes in generated code. */
  const HwTokenSubstitutions: seq<(string, string)> := [
    ("$inPosition", "i_position"),
    ("$inNormal", "i_normal"),
    ("$inTangent", "i_tangent"),
    ("$inBitangent", "i_bitangent"),
    ("$inTexcoord", "i_texcoord"),
    ("$inColor", "i_color"),
    ("$positionWorld", "positionWorld"),
    ("$normalWorld", "normalWorld"),
    ("$tangentWorld", "tangentWorld"),
    ("$bitangentWorld", "bitangentWorld"),
    ("$positionObject", "positionObject"),
    ("$normalObject", "normalObject"),
    ("$tangentObject", "tangentObject"),
    ("$bitangentObject", "bitangentObject"),
    ("$texcoord", "texcoord"),
    ("$color", "color"),
    ("$worldMatrix", "u_worldMatrix"),
    ("$worldInverseMatrix", "u_worldInverseMatrix"),
    ("$worldTransposeMatrix", "u_worldTransposeMatrix"),
    ("$worldInverseTransposeMatrix", "u_worldInverseTransposeMatrix"),
    ("$viewMatrix", "u_viewMatrix"),
    ("$viewInverseMatrix", "u_viewInverseMatrix"),
    ("$viewTransposeMatrix", "u_viewTransposeMatrix"),
    ("$viewInverseTransposeMatrix", "u_viewInverseTransposeMatrix"),
    ("$projectionMatrix", "u_projectionMatrix"),
    ("$projectionInverseMatrix", "u_projectionInverseMatrix"),
    ("$projectionTransposeMatrix", "u_projectionTransposeMatrix"),
    ("$projectionInverseTransposeMatrix", "u_projectionInverseTransposeMatrix"),
    ("$worldViewMatrix", "u_worldViewMatrix"),
    ("$viewProjectionMatrix", "u_viewProjectionMatrix"),
    ("$worldViewProjectionMatrix", "u_worldViewProjectionMatrix"),
    ("$viewPosition", "u_viewPosition"),
    ("$viewDirection", "u_viewDirection"),
    ("$frame", "u_frame"),
    ("$time", "u_time"),
    ("$geomattr", "u_geomattr"),
    ("$numActiveLightSources", "u_numActiveLightSources"),
    ("$envMatrix", "u_envMatrix"),
    ("$envIrradiance", "u_envIrradiance"),
    ("$envRadiance", "u_envRadiance"),
    ("$envRadianceMips", "u_envRadianceMips"),
    ("$envRadianceSamples", "u_envRadianceSamples"),
    ("$vd", "vd"),
    ("$lightData", "u_lightData")
  ]

  /** The hardware generator: a generator over `syntax` seeded with the hardware token table. */
  function HwGenerator(syntax: Syntax, factory: set<string>): Generator {
    Generator(syntax, HwTokenSubstitutions, factory, true)
  }

  /** The vertex stage: position input, world and view-projection matrices, and the block feeding the pixel stage. */
  function VertexStage(): (s: Stage)
    ensures s.name == "vertex" && s.code == []
    ensures s.inputs == [VariableBlock(VERTEX_INPUTS, "i_vs", [NewVariable(VECTOR3, "$inPosition", None)])]
    ensures s.uniforms == [
      VariableBlock(PRIVATE_UNIFORMS, "u_prv", [NewVariable(MATRIX44, "$worldMatrix", None), NewVariable(MATRIX44, "$viewProjectionMatrix", None)]),
      EmptyBlock(PUBLIC_UNIFORMS, "u_pub")]
    ensures s.outputs == [EmptyBlock(VERTEX_DATA, "$vd")]
  {
    EmptyStage("vertex").(
      inputs := [VariableBlock(VERTEX_INPUTS, "i_vs", [NewVariable(VECTOR3, "$inPosition", None)])],
      uniforms := [
        VariableBlock(PRIVATE_UNIFORMS, "u_prv", [NewVariable(MATRIX44, "$worldMatrix", None), NewVariable(MATRIX44, "$viewProjectionMatrix", None)]),
        EmptyBlock(PUBLIC_UNIFORMS, "u_pub")],
      outputs := [EmptyBlock(VERTEX_DATA, "$vd")])
  }

  /** Adding the position to a fresh vertex-input block succeeds and yields the vertex stage's input block. */
  lemma VertexInputsAdded()
    ensures AddVariables(EmptyBlock(VERTEX_INPUTS, "i_vs"), [NewVariable(VECTOR3, "$inPosition", None)])
      == Ok(VertexStage().inputs[0])
  {
    var r := AddVariables(EmptyBlock(VERTEX_INPUTS, "i_vs"), [NewVariable(VECTOR3, "$inPosition", None)]);
    assert r.value.vars == VertexStage().inputs[0].vars;
  }

  /** Adding the two matrices to a fresh private block succeeds and yields the vertex stage's private uniforms. */
  lemma VertexPrivatesAdded()
    ensures AddVariables(EmptyBlock(PRIVATE_UNIFORMS, "u_prv"),
        [NewVariable(MATRIX44, "$worldMatrix", None), NewVariable(MATRIX44, "$viewProjectionMatrix", None)])
      == Ok(VertexStage().uniforms[0])
  {
    var r := AddVariables(EmptyBlock(PRIVATE_UNIFORMS, "u_prv"),
      [NewVariable(MATRIX44, "$worldMatrix", None), NewVariable(MATRIX44, "$viewProjectionMatrix", None)]);
    assert r.value.vars == VertexStage().uniforms[0].vars;
  }

  /**
   The vertex stage's blocks are what adding its variables one by one to
   freshly created blocks yields: none of the additions is refused, and
   every block ends up with unique variable names.
   */
  lemma VertexStageBuilt()
    ensures AddVariables(EmptyBlock(VERTEX_INPUTS, "i_vs"), [NewVariable(VECTOR3, "$inPosition", None)])
      == Ok(VertexStage().inputs[0])
    ensures AddVariables(EmptyBlock(PRIVATE_UNIFORMS, "u_prv"),
        [NewVariable(MATRIX44, "$worldMatrix", None), NewVariable(MATRIX44, "$viewProjectionMatrix", None)])
      == Ok(VertexStage().uniforms[0])
    ensures var s := VertexStage();
      UniqueNames(s.inputs[0]) && UniqueNames(s.uniforms[0]) && UniqueNames(s.uniforms[1]) && UniqueNames(s.outputs[0])
  {
    VertexInputsAdded();
    VertexPrivatesAdded();
    assert UniqueNames(EmptyBlock(VERTEX_INPUTS, "i_vs")) && UniqueNames(EmptyBlock(PRIVATE_UNIFORMS, "u_prv"));
  }

  /** Environment lighting is needed for a surface shader or a BSDF graph, unless specular environment evaluation is off. */
  predicate NeedsEnvironment(g: Graph, options: Options) {
    && (HasClassification(g.flags, {SHADER, SURFACE}) || HasClassification(g.flags, {BSDF}))
    && options.hwSpecularEnvironmentMethod != SPECULAR_ENVIRONMENT_NONE
  }

  /** The environment uniforms: rotation matrix, irradiance and radiance maps, mip count 1 and sample count 16. */
  const EnvUniforms: seq<Variable> := [
    NewVariable(MATRIX44, "$envMatrix", Some(MatrixValue)),
    NewVariable(FILENAME, "$envIrradiance", None),
    NewVariable(FILENAME, "$envRadiance", None),
    NewVariable(INTEGER, "$envRadianceMips", Some(IntValue(1))),
    NewVariable(INTEGER, "$envRadianceSamples", Some(IntValue(16)))]

  /** The environment uniforms can always be added to an empty block. */
  lemma EnvUniformsAdd(b: VariableBlock)
    requires b.vars == []
    ensures AddVariables(b, EnvUniforms).Ok?
  {
    assert Distinct(Names(EnvUniforms)) by {
      var ns := Names(EnvUniforms);
      assert ns == ["$envMatrix", "$envIrradiance", "$envRadiance", "$envRadianceMips", "$envRadianceSamples"];
    }
  }

  /** A socket is published when something inside the graph uses it and the graph lets users edit it. */
  predicate IsPublished(s: Socket) {
    s.connections > 0 && s.editable
  }

  /** The published sockets, as public uniforms sharing their ports, in socket order. */
  function Published(sockets: seq<Socket>): (r: seq<Variable>)
    ensures forall v :: v in r <==> exists s :: s in sockets && IsPublished(s) && v == PortVariable(s.port)
    ensures |r| <= |sockets|
  {
    if sockets == [] then []
    else
      var init := sockets[..|sockets| - 1];
      var last := sockets[|sockets| - 1];
      assert forall s :: s in sockets <==> s in init || s == last;
      var rest := Published(init);
      if IsPublished(last) then rest + [PortVariable(last.port)] else rest
  }

  /** The pixel output: named after the graph output, carrying its identifier and path, always of type color4. */
  function PixelOutput(out: Port): (v: Variable)
    ensures v.name == out.name && v.variable == out.variable && v.path == out.path && v.vtype == COLOR4
  {
    Variable(out.name, out.variable, COLOR4, None, out.path)
  }

  /** The graphs of the bound light shaders, in the given enumeration of the bindings. */
  function LightGraphs(lights: LightShaders, order: seq<nat>): (r: seq<Graph>)
    requires forall k :: 0 <= k < |order| ==> order[k] in lights
    ensures forall g :: g in r <==> exists k :: 0 <= k < |order| && lights[order[k]].subgraph == Some(g)
  {
    if order == [] then []
    else
      var rest := LightGraphs(lights, order[1..]);
      assert forall k :: 0 <= k < |order[1..]| ==> order[1..][k] == order[k + 1];
      var node := lights[order[0]];
      assert forall g :: (exists k :: 0 <= k < |order| && lights[order[k]].subgraph == Some(g)) <==>
        node.subgraph == Some(g) || exists k :: 0 <= k < |order[1..]| && lights[order[1..][k]].subgraph == Some(g) by {
        forall g | exists k :: 0 <= k < |order| && lights[order[k]].subgraph == Some(g)
          ensures node.subgraph == Some(g) || exists k :: 0 <= k < |order[1..]| && lights[order[1..][k]].subgraph == Some(g)
        {
          var k :| 0 <= k < |order| && lights[order[k]].subgraph == Some(g);
          if k > 0 {
            assert order[1..][k - 1] == order[k];
          }
        }
      }
      (if node.subgraph.Some? then [node.subgraph.value] else []) + rest
  }

  /** A created shader: its two stages, its attributes, and the input values rewritten by the filename pass. */
  datatype Shader = Shader(name: string, vertex: Stage, pixel: Stage, attributes: set<string>, rewrites: seq<(nat, Value)>)

  /**
   Creates the shader for a graph. The pixel stage gets the environment
   uniforms exactly when the graph needs environment lighting, publishes
   the used editable sockets, outputs a color4 named after the graph
   output, and turns every filename input of the root graph, of the bound
   light graphs and of all their nested graphs into a public uniform.
   `lightOrder` enumerates the light bindings.
   */
  method CreateShader(name: string, graph: Graph, ctx: Context, lightOrder: seq<nat>) returns (r: Result<Shader>)
    requires Distinct(lightOrder) && Elements(lightOrder) == Bindings(ctx).Keys
    ensures r.Ok? ==> r.value.vertex == VertexStage() && r.value.name == name
    ensures r.Ok? ==> r.value.pixel.name == "pixel" && |r.value.pixel.uniforms| == 3
    ensures r.Ok? ==> r.value.pixel.uniforms[0].name == PRIVATE_UNIFORMS
    ensures r.Ok? ==> r.value.pixel.uniforms[0].vars == (if NeedsEnvironment(graph, ctx.options) then EnvUniforms else [])
    ensures r.Ok? ==>
      var pub := r.value.pixel.uniforms[1];
      && pub.name == PUBLIC_UNIFORMS
      && |Published(graph.inputSockets)| <= |pub.vars|
      && pub.vars[..|Published(graph.inputSockets)|] == Published(graph.inputSockets)
      && Elements(pub.vars[|Published(graph.inputSockets)|..])
         == UniformSet(QueueFileInputs([graph] + LightGraphs(Bindings(ctx), lightOrder)))
      && UniqueNames(pub)
    ensures r.Ok? ==> Elements(r.value.rewrites) == RewriteSet(QueueFileInputs([graph] + LightGraphs(Bindings(ctx), lightOrder)))
    ensures r.Ok? ==> r.value.pixel.uniforms[2] == VariableBlock(LIGHT_DATA, "$lightData", [NewVariable(INTEGER, "type", None)])
    ensures r.Ok? ==> r.value.pixel.outputs == [VariableBlock(PIXEL_OUTPUTS, "o_ps", [PixelOutput(graph.outputSocket)])]
    ensures r.Ok? ==> r.value.pixel.inputs == [EmptyBlock(VERTEX_DATA, "$vd")]
    ensures r.Ok? ==> (ATTR_TRANSPARENT in r.value.attributes <==> ctx.options.hwTransparency)
    ensures r.Ok? ==> forall i :: i in QueueFileInputs([graph] + LightGraphs(Bindings(ctx), lightOrder)) ==>
      Rewrite(i) in r.value.rewrites && UniformOnce(r.value.pixel.uniforms[1], i)
    ensures r.Ok? <==> Distinct(Names(Published(graph.inputSockets) + Uniforms(Walk([graph] + LightGraphs(Bindings(ctx), lightOrder)))))
    ensures r.Err? ==> r.error.DuplicateVariable? && r.error.block == PUBLIC_UNIFORMS
  {
    var priv := EmptyBlock(PRIVATE_UNIFORMS, "u_prv");
    if NeedsEnvironment(graph, ctx.options) {
      EnvUniformsAdd(priv);
      priv := AddVariables(priv, EnvUniforms).value;
    }
    var roots := [graph] + LightGraphs(Bindings(ctx), lightOrder);
    var conversion := PublishInterface(graph, roots);
    if conversion.Err? {
      return Err(conversion.error);
    }
    var pub := conversion.value.uniforms;
    var lightData := VariableBlock(LIGHT_DATA, "$lightData", [NewVariable(INTEGER, "type", None)]);
    var pixel := EmptyStage("pixel").(
      uniforms := [priv, pub, lightData],
      inputs := [EmptyBlock(VERTEX_DATA, "$vd")],
      outputs := [VariableBlock(PIXEL_OUTPUTS, "o_ps", [PixelOutput(graph.outputSocket)])]);
    var attributes: set<string> := if ctx.options.hwTransparency then {ATTR_TRANSPARENT} else {};
    var shader := Shader(name, VertexStage(), pixel, attributes, conversion.value.rewrites);
    forall i | i in QueueFileInputs(roots) ensures Rewrite(i) in shader.rewrites && UniformOnce(pub, i) {
      FilenameRoundTrip(graph, ctx, lightOrder, shader, i);
    }
    return Ok(shader);
  }

  /**
   The public uniform block: the published graph inputs first, then the
   uniforms of the filename inputs along the walk. Both are one run of
   additions to an empty block, so the block is built exactly when no two
   of those names coincide.
   */
  method PublishInterface(graph: Graph, roots: seq<Graph>) returns (r: Result<Conversion>)
    ensures r.Ok? <==> Distinct(Names(Published(graph.inputSockets) + Uniforms(Walk(roots))))
    ensures r.Ok? ==> r.value.uniforms == VariableBlock(PUBLIC_UNIFORMS, "u_pub", Published(graph.inputSockets) + Uniforms(Walk(roots)))
    ensures r.Ok? ==> r.value.rewrites == Rewrites(Walk(roots))
    ensures r.Ok? ==> Elements(r.value.uniforms.vars[|Published(graph.inputSockets)|..]) == UniformSet(QueueFileInputs(roots))
    ensures r.Ok? ==> Elements(r.value.rewrites) == RewriteSet(QueueFileInputs(roots))
    ensures r.Ok? ==> UniqueNames(r.value.uniforms)
    ensures r.Err? ==> r.error.DuplicateVariable? && r.error.block == PUBLIC_UNIFORMS
  {
    var empty := EmptyBlock(PUBLIC_UNIFORMS, "u_pub");
    PublicRun(graph, roots);
    var published := AddVariables(empty, Published(graph.inputSockets));
    if published.Err? {
      return Err(published.error);
    }
    assert UniqueNames(empty);
    r := ConvertFilenameInputs(roots, published.value);
  }

  /** The run of additions into the empty public block succeeds exactly when its names are distinct, and splits at the published inputs. */
  lemma PublicRun(graph: Graph, roots: seq<Graph>)
    ensures var all := AddVariables(EmptyBlock(PUBLIC_UNIFORMS, "u_pub"), Published(graph.inputSockets) + Uniforms(Walk(roots)));
      all.Ok? <==> Distinct(Names(Published(graph.inputSockets) + Uniforms(Walk(roots))))
    ensures var all := AddVariables(EmptyBlock(PUBLIC_UNIFORMS, "u_pub"), Published(graph.inputSockets) + Uniforms(Walk(roots)));
      all == match AddVariables(EmptyBlock(PUBLIC_UNIFORMS, "u_pub"), Published(graph.inputSockets))
             { case Err(e) => Err(e) case Ok(mid) => AddVariables(mid, Uniforms(Walk(roots))) }
  {
    AddVariablesConcat(EmptyBlock(PUBLIC_UNIFORMS, "u_pub"), Published(graph.inputSockets), Uniforms(Walk(roots)));
  }

  /** The block holds a filename uniform named after the input's variable, and no other variable of that name. */
  predicate UniformOnce(b: VariableBlock, i: Input) {
    exists k :: 0 <= k < |b.vars| && b.vars[k] == Uniform(i) &&
      forall k' :: 0 <= k' < |b.vars| && b.vars[k'].name == i.port.variable ==> k' == k
  }

  /**
   The filename round trip: after shader creation, every converted input's
   new value names a public uniform of filename type, and that uniform is
   the only public uniform with that name.
   */
  lemma FilenameRoundTrip(graph: Graph, ctx: Context, lightOrder: seq<nat>, sh: Shader, i: Input)
    requires Distinct(lightOrder) && Elements(lightOrder) == Bindings(ctx).Keys
    requires i in QueueFileInputs([graph] + LightGraphs(Bindings(ctx), lightOrder))
    requires sh.pixel.name == "pixel" && |sh.pixel.uniforms| == 3
    requires
      var pub := sh.pixel.uniforms[1];
      && |Published(graph.inputSockets)| <= |pub.vars|
      && Elements(pub.vars[|Published(graph.inputSockets)|..])
         == UniformSet(QueueFileInputs([graph] + LightGraphs(Bindings(ctx), lightOrder)))
      && UniqueNames(pub)
    requires Elements(sh.rewrites) == RewriteSet(QueueFileInputs([graph] + LightGraphs(Bindings(ctx), lightOrder)))
    ensures (i.port.id, StringValue(i.port.variable)) in sh.rewrites
    ensures UniformOnce(sh.pixel.uniforms[1], i)
  {
    var pub := sh.pixel.uniforms[1];
    var n := |Published(graph.inputSockets)|;
    assert Rewrite(i) in RewriteSet(QueueFileInputs([graph] + LightGraphs(Bindings(ctx), lightOrder)));
    assert Uniform(i) in Elements(pub.vars[n..]);
    var k :| 0 <= k < |pub.vars[n..]| && pub.vars[n..][k] == Uniform(i);
    assert pub.vars[n + k] == Uniform(i);
  }
}
