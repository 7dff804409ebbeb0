/**
 Light-shader binding of the hardware generator: a registry from light type
 id to the bound light node, kept as the top entry of the context's
 light-shader user-data stack and created on first use.
 */
module HwLights {
  import opened Base
  import opened GenContext

  /** Generated code reads light inputs as members of the per-light structure. */
  const LIGHT_PREFIX := "light."

  /** Prefixes every input socket identifier of a light graph with the light structure's name. */
  function PrefixSockets(g: Graph): (r: Graph)
    ensures r == g.(inputSockets := r.inputSockets)
    ensures |r.inputSockets| == |g.inputSockets|
    ensures forall i :: 0 <= i < |g.inputSockets| ==>
      && r.inputSockets[i].port.variable == LIGHT_PREFIX + g.inputSockets[i].port.variable
      && r.inputSockets[i] == g.inputSockets[i].(port := r.inputSockets[i].port)
      && r.inputSockets[i].port == g.inputSockets[i].port.(variable := r.inputSockets[i].port.variable)
  {
    g.(inputSockets := seq(|g.inputSockets|, i requires 0 <= i < |g.inputSockets| =>
      var s := g.inputSockets[i];
      s.(port := s.port.(variable := LIGHT_PREFIX + s.port.variable))))
  }

  /** The node bound for a light: when its implementation is a graph, that graph's sockets are prefixed. */
  function LightNode(created: Node): (r: Node)
    ensures r == created.(subgraph := r.subgraph)
    ensures created.subgraph.None? ==> r == created
    ensures created.subgraph.Some? ==> r.subgraph == Some(PrefixSockets(created.subgraph.value))
  {
    match created.subgraph
    case None => created
    case Some(g) => created.(subgraph := Some(PrefixSockets(g)))
  }

  /** The bindings visible in a context; no registry means no bindings. */
  function Bindings(ctx: Context): LightShaders {
    match CurrentLights(ctx)
    case None => map[]
    case Some(reg) => reg
  }

  /** Replaces the registry on top of the light-shader stack. */
  function WithBindings(ctx: Context, reg: LightShaders): (r: Context)
    requires |ctx.lights| > 0
    ensures Bindings(r) == reg && |r.lights| == |ctx.lights|
    ensures r == ctx.(lights := r.lights) && r.lights[..|r.lights| - 1] == ctx.lights[..|ctx.lights| - 1]
  {
    ctx.(lights := ctx.lights[..|ctx.lights| - 1] + [reg])
  }

  /**
   Binds a light node definition under a light type id. A definition that is
   not of light-shader type and an id that is already bound are errors; the
   context is left as it was on either error. The registry is created and
   pushed on first use. On success the id maps to the instantiated node,
   with its graph's input sockets prefixed, and nothing else changes.
   */
  function BindLightShader(ctx: Context, nodeDef: NodeDef, id: nat, created: Node): (r: Result<Context>)
    ensures nodeDef.ntype != LIGHTSHADER ==> r == Err(TypeMismatch(nodeDef.name))
    ensures nodeDef.ntype == LIGHTSHADER ==> (r.Err? <==> id in Bindings(ctx))
    ensures nodeDef.ntype == LIGHTSHADER && r.Err? ==> r.error == DuplicateBinding(id)
    ensures r.Ok? ==> Bindings(r.value) == Bindings(ctx)[id := LightNode(created)]
    ensures r.Ok? ==> r.value == ctx.(lights := r.value.lights)
    ensures r.Ok? && |ctx.lights| > 0 ==> |r.value.lights| == |ctx.lights| && r.value.lights[..|ctx.lights| - 1] == ctx.lights[..|ctx.lights| - 1]
    ensures r.Ok? && |ctx.lights| == 0 ==> |r.value.lights| == 1
  {
    if nodeDef.ntype != LIGHTSHADER then Err(TypeMismatch(nodeDef.name))
    else
      var withRegistry := if CurrentLights(ctx).None? then ctx.(lights := Push(ctx.lights, map[])) else ctx;
      var reg := Bindings(withRegistry);
      if id in reg then Err(DuplicateBinding(id))
      else Ok(WithBindings(withRegistry, reg[id := LightNode(created)]))
  }

  /** Removes one binding; without a registry nothing happens. */
  function UnbindLightShader(ctx: Context, id: nat): (r: Context)
    ensures CurrentLights(ctx).None? ==> r == ctx
    ensures Bindings(r) == Bindings(ctx) - {id}
    ensures r == ctx.(lights := r.lights) && |r.lights| == |ctx.lights|
  {
    if CurrentLights(ctx).None? then ctx else WithBindings(ctx, Bindings(ctx) - {id})
  }

  /** Removes every binding; without a registry nothing happens. */
  function UnbindLightShaders(ctx: Context): (r: Context)
    ensures CurrentLights(ctx).None? ==> r == ctx
    ensures Bindings(r) == map[]
    ensures r == ctx.(lights := r.lights) && |r.lights| == |ctx.lights|
  {
    if CurrentLights(ctx).None? then ctx else WithBindings(ctx, map[])
  }

  /** Unbinding what was just bound restores the previous bindings. */
  lemma BindThenUnbind(ctx: Context, nodeDef: NodeDef, id: nat, created: Node)
    requires BindLightShader(ctx, nodeDef, id, created).Ok?
    ensures Bindings(UnbindLightShader(BindLightShader(ctx, nodeDef, id, created).value, id)) == Bindings(ctx)
  {
    var bound := BindLightShader(ctx, nodeDef, id, created).value;
    assert id !in Bindings(ctx);
    assert Bindings(bound) - {id} == Bindings(ctx);
  }

  /** Once an id is bound, binding any definition under it again fails with a duplicate-binding error. */
  lemma RebindFails(ctx: Context, nodeDef: NodeDef, other: NodeDef, id: nat, created: Node, again: Node)
    requires BindLightShader(ctx, nodeDef, id, created).Ok?
    requires other.ntype == LIGHTSHADER
    ensures BindLightShader(BindLightShader(ctx, nodeDef, id, created).value, other, id, again) == Err(DuplicateBinding(id))
  {
  }
}
