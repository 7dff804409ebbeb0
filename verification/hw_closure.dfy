/**
 Closure-context dispatch of the hardware generator: the fixed closure
 contexts, the contexts a BSDF or EDF node is evaluated in, the rule that
 decides whether a closure node is evaluated in the active context, and the
 emission passes over texture, BSDF and EDF nodes.
 */
module HwClosure {
  import opened Base
  import opened GenContext
  import opened ShaderGenerator

  // ---------------------------------------------------------------------
  // The fixed closure contexts
  // ---------------------------------------------------------------------

  const DIR_N := "N"
  const DIR_L := "L"
  const DIR_V := "V"

  const DefReflection := ClosureContext(REFLECTION, "_reflection", [(VECTOR3, DIR_L), (VECTOR3, DIR_V)])
  const DefTransmission := ClosureContext(TRANSMISSION, "_transmission", [(VECTOR3, DIR_V)])
  const DefIndirect := ClosureContext(INDIRECT, "_indirect", [(VECTOR3, DIR_V)])
  const DefEmission := ClosureContext(EMISSION, "", [(VECTOR3, DIR_N), (VECTOR3, DIR_L)])

  /** The context the generator uses for each kind. */
  function DefinedContext(kind: ClosureKind): (c: ClosureContext)
    ensures c.kind == kind
  {
    match kind
    case REFLECTION => DefReflection
    case TRANSMISSION => DefTransmission
    case INDIRECT => DefIndirect
    case EMISSION => DefEmission
  }

  /** Each kind has its own suffix; only emission has none, and every context passes a view or light direction. */
  lemma DefinedContextsDistinct(k1: ClosureKind, k2: ClosureKind)
    ensures k1 != k2 ==> DefinedContext(k1).suffix != DefinedContext(k2).suffix
    ensures DefinedContext(k1).suffix == "" <==> k1 == EMISSION
    ensures |DefinedContext(k1).args| >= 1
    ensures forall i :: 0 <= i < |DefinedContext(k1).args| ==> DefinedContext(k1).args[i].0 == VECTOR3
  {
  }

  // ---------------------------------------------------------------------
  // Contexts of a node and the match rule
  // ---------------------------------------------------------------------

  /**
   The contexts a closure node is evaluated in, in order: reflection and
   indirect for a reflection BSDF, transmission for a transmission-only BSDF,
   all three for a general BSDF, emission for an EDF, none otherwise. The
   reflection flag is examined before the transmission flag.
   */
  function GetNodeClosureContexts(flags: set<Flag>): (r: seq<ClosureContext>)
    ensures BSDF in flags && BSDF_R in flags ==> r == [DefReflection, DefIndirect]
    ensures BSDF in flags && BSDF_R !in flags && BSDF_T in flags ==> r == [DefTransmission]
    ensures BSDF in flags && BSDF_R !in flags && BSDF_T !in flags ==> r == [DefReflection, DefTransmission, DefIndirect]
    ensures BSDF !in flags && EDF in flags ==> r == [DefEmission]
    ensures BSDF !in flags && EDF !in flags ==> r == []
  {
    if HasClassification(flags, {BSDF}) then
      if HasClassification(flags, {BSDF_R}) then [DefReflection, DefIndirect]
      else if HasClassification(flags, {BSDF_T}) then [DefTransmission]
      else [DefReflection, DefTransmission, DefIndirect]
    else if HasClassification(flags, {EDF}) then [DefEmission]
    else []
  }

  /**
   Whether a closure node is evaluated in a context of the given kind:
   reflection and indirect take BSDFs that are not transmission-only,
   transmission takes BSDFs that are not reflection-only, emission takes EDFs.
   */
  predicate ClosureMatches(kind: ClosureKind, flags: set<Flag>) {
    || ((kind == REFLECTION || kind == INDIRECT) && HasClassification(flags, {BSDF}) && !HasClassification(flags, {BSDF_T}))
    || (kind == TRANSMISSION && HasClassification(flags, {BSDF}) && !HasClassification(flags, {BSDF_R}))
    || (kind == EMISSION && HasClassification(flags, {EDF}))
  }

  /** The kinds of a sequence of contexts. */
  function Kinds(cs: seq<ClosureContext>): set<ClosureKind> {
    set c | c in cs :: c.kind
  }

  /**
   The two policies agree: for a node that is not both a BSDF and an EDF,
   and not flagged both reflection-only and transmission-only, a kind is
   among the node's contexts exactly when the match rule accepts the node
   in that kind.
   */
  lemma ContextsAgreeWithMatch(flags: set<Flag>, kind: ClosureKind)
    requires !(BSDF in flags && EDF in flags)
    requires !(BSDF_R in flags && BSDF_T in flags)
    ensures kind in Kinds(GetNodeClosureContexts(flags)) <==> ClosureMatches(kind, flags)
  {
    var cs := GetNodeClosureContexts(flags);
    if BSDF in flags && BSDF_R in flags {
      assert cs[0].kind == REFLECTION && cs[1].kind == INDIRECT;
    } else if BSDF in flags && BSDF_T in flags {
      assert cs[0].kind == TRANSMISSION;
    } else if BSDF in flags {
      assert cs[0].kind == REFLECTION && cs[1].kind == TRANSMISSION && cs[2].kind == INDIRECT;
    } else if EDF in flags {
      assert cs[0].kind == EMISSION;
    }
  }

  /**
   A BSDF flagged both reflection-only and transmission-only is given the
   reflection and indirect contexts, yet the match rule accepts it in no
   BSDF context at all.
   */
  lemma BothDirectionsNeverMatch(flags: set<Flag>)
    requires BSDF in flags && BSDF_R in flags && BSDF_T in flags
    ensures Kinds(GetNodeClosureContexts(flags)) == {REFLECTION, INDIRECT}
    ensures !ClosureMatches(REFLECTION, flags) && !ClosureMatches(INDIRECT, flags) && !ClosureMatches(TRANSMISSION, flags)
  {
    var cs := GetNodeClosureContexts(flags);
    assert cs[0].kind == REFLECTION && cs[1].kind == INDIRECT;
  }

  // ---------------------------------------------------------------------
  // The hardware function call
  // ---------------------------------------------------------------------

  /** Whether the node is emitted for real: no context is active, it is not a closure, or it matches the context. */
  predicate CallMatches(ctx: Context, node: Node) {
    match ActiveClosure(ctx)
    case None => true
    case Some(c) => !HasClassification(node.flags, {CLOSURE}) || ClosureMatches(c.kind, node.flags)
  }

  /**
   The hardware call of one node. After the conditional-scope skip, a node
   that matches the active closure context is emitted by its implementation;
   a mismatched one only gets its typed output declared and assigned the
   type default, so that later references stay well formed.
   */
  function HwEmitFunctionCall(gen: Generator, ctx: Context, node: Node, checkScope: bool): (r: Line)
    ensures r.Comment? <==> SkippedByScope(node, checkScope)
    ensures r.Call? <==> !SkippedByScope(node, checkScope) && CallMatches(ctx, node)
    ensures r.Call? ==> r == Call(node.impl, node.name, ActiveKind(ctx))
    ensures r.Statement? ==> r.text == EmitOutput(gen.syntax, ctx, node.output, true, true)
    ensures !SkippedByScope(node, checkScope) && !CallMatches(ctx, node) ==>
      r == Statement(EmitOutput(gen.syntax, ctx, node.output, true, true))
  {
    if checkScope && node.conditional.Some? then Comment(OmittedComment(node))
    else
      var matched :=
        match ActiveClosure(ctx)
        case None => true
        case Some(ccx) => !HasClassification(node.flags, {CLOSURE}) || ClosureMatches(ccx.kind, node.flags);
      if matched then ImplementationCall(ctx, node)
      else Statement(EmitOutput(gen.syntax, ctx, node.output, true, true))
  }

  /** Outside any closure context, or for a node that is not a closure, the hardware call is the base call. */
  lemma HwCallRefinesBase(gen: Generator, ctx: Context, node: Node, checkScope: bool)
    requires ActiveClosure(ctx).None? || CLOSURE !in node.flags
    ensures HwEmitFunctionCall(gen, ctx, node, checkScope) == EmitFunctionCall(ctx, node, checkScope)
  {
  }

  /** The call a generator makes for a node: the hardware variant overrides the base one. */
  function GeneratorFunctionCall(gen: Generator, ctx: Context, node: Node, checkScope: bool): Line {
    if gen.hw then HwEmitFunctionCall(gen, ctx, node, checkScope) else EmitFunctionCall(ctx, node, checkScope)
  }

  /** The inherited all-nodes pass, dispatching to the generator's own call. */
  method EmitGraphFunctionCalls(gen: Generator, ctx: Context, graph: Graph) returns (lines: seq<Line>)
    ensures |lines| == |graph.nodes|
    ensures forall i :: 0 <= i < |graph.nodes| ==> lines[i] == GeneratorFunctionCall(gen, ctx, graph.nodes[i], true)
  {
    lines := EmitNodes(graph.nodes, (n: Node) => GeneratorFunctionCall(gen, ctx, n, true));
  }

  // ---------------------------------------------------------------------
  // Texture nodes
  // ---------------------------------------------------------------------

  /** A texture node that is not confined to a conditional branch. */
  predicate HoistedTexture(node: Node) {
    HasClassification(node.flags, {TEXTURE}) && node.conditional.None?
  }

  /** The nodes a predicate selects, in stored order. */
  function Select(nodes: seq<Node>, p: Node -> bool): (r: seq<Node>)
    ensures |r| <= |nodes|
    decreases |nodes|
  {
    if nodes == [] then []
    else Select(nodes[..|nodes| - 1], p) + (if p(nodes[|nodes| - 1]) then [nodes[|nodes| - 1]] else [])
  }

  /** A node is selected exactly when it is among the nodes and the predicate holds for it. */
  lemma {:induction false} SelectMembers(nodes: seq<Node>, p: Node -> bool)
    ensures forall n :: n in Select(nodes, p) <==> n in nodes && p(n)
    decreases |nodes|
  {
    if nodes != [] {
      var init := nodes[..|nodes| - 1];
      SelectMembers(init, p);
      assert nodes == init + [nodes[|nodes| - 1]];
    }
  }

  /** Selecting from one more node appends that node exactly when the predicate holds for it. */
  lemma SelectSnoc(nodes: seq<Node>, p: Node -> bool, i: nat)
    requires i < |nodes|
    ensures Select(nodes[..i + 1], p) == Select(nodes[..i], p) + (if p(nodes[i]) then [nodes[i]] else [])
  {
    assert nodes[..i + 1][..i] == nodes[..i];
  }

  /**
   Emits the nodes the predicate selects, in stored order, and reports the
   last of them.
   */
  method EmitSelected(nodes: seq<Node>, select: Node -> bool, emit: Node -> Line) returns (lines: seq<Line>, last: Option<Node>)
    ensures var sel := Select(nodes, select);
      && |lines| == |sel|
      && (forall k :: 0 <= k < |sel| ==> lines[k] == emit(sel[k]))
      && (last.None? <==> |sel| == 0)
      && (last.Some? ==> last.value == sel[|sel| - 1])
  {
    lines := [];
    last := None;
    ghost var sel: seq<Node> := [];
    var i := 0;
    while i < |nodes|
      invariant 0 <= i <= |nodes|
      invariant sel == Select(nodes[..i], select)
      invariant |lines| == |sel|
      invariant forall k :: 0 <= k < |sel| ==> lines[k] == emit(sel[k])
      invariant last.None? <==> |sel| == 0
      invariant last.Some? ==> last.value == sel[|sel| - 1]
    {
      SelectSnoc(nodes, select, i);
      var node := nodes[i];
      if select(node) {
        lines := lines + [emit(node)];
        last := Some(node);
        sel := sel + [node];
      }
      i := i + 1;
    }
    assert nodes[..i] == nodes;
  }

  /**
   Emits, without the scope check, the calls of the texture nodes that are
   not referenced conditionally, followed by a line break when at least one
   call was emitted.
   */
  method EmitTextureNodes(gen: Generator, ctx: Context, graph: Graph) returns (lines: seq<Line>)
    ensures var textures := Select(graph.nodes, HoistedTexture);
      && |lines| == |textures| + (if |textures| > 0 then 1 else 0)
      && (forall i :: 0 <= i < |textures| ==> lines[i] == HwEmitFunctionCall(gen, ctx, textures[i], false))
      && (|textures| > 0 ==> lines[|lines| - 1] == LineBreak)
    ensures LineBreak in lines <==> exists n :: n in graph.nodes && HoistedTexture(n)
  {
    var found;
    lines, found := EmitSelected(graph.nodes, HoistedTexture, (n: Node) => HwEmitFunctionCall(gen, ctx, n, false));
    var textures := Select(graph.nodes, HoistedTexture);
    assert forall k :: 0 <= k < |textures| ==> !lines[k].LineBreak?;
    if found.Some? {
      lines := lines + [LineBreak];
    }
    SelectMembers(graph.nodes, HoistedTexture);
    assert |textures| > 0 ==> textures[0] in textures;
  }

  // ---------------------------------------------------------------------
  // BSDF and EDF nodes
  // ---------------------------------------------------------------------

  /** A node of the given closure classification that the shader node uses. */
  function UsedClosureOf(flag: Flag, used: set<string>): Node -> bool {
    (n: Node) => HasClassification(n.flags, {flag}) && n.name in used
  }

  /**
   Emits, with `ccx` pushed as the active closure context, the calls of the
   nodes of classification `flag` that the shader node uses, in graph order.
   The result names the output of the last of them, or is the type default
   when there is none; the context is popped again before returning.
   */
  method EmitClosureNodes(gen: Generator, graph: Graph, used: set<string>, ccx: ClosureContext, ctx: Context, flag: Flag, resultType: TypeDesc)
    returns (lines: seq<Line>, result: string, ctxOut: Context)
    ensures ctxOut == ctx
    ensures var sel := Select(graph.nodes, UsedClosureOf(flag, used));
      && |lines| == |sel|
      && (forall i :: 0 <= i < |sel| ==> lines[i] == HwEmitFunctionCall(gen, ctx.(closures := ctx.closures + [ccx]), sel[i], false))
      && (|sel| == 0 ==> result == gen.syntax.defaultValue(resultType, false))
      && (|sel| > 0 ==> result == sel[|sel| - 1].output.variable)
  {
    result := gen.syntax.defaultValue(resultType, false);
    var inner := ctx.(closures := Push(ctx.closures, ccx));
    var last;
    lines, last := EmitSelected(graph.nodes, UsedClosureOf(flag, used), (n: Node) => HwEmitFunctionCall(gen, inner, n, false));
    if last.Some? {
      result := last.value.output.variable;
    }
    ctxOut := inner.(closures := Pop(inner.closures));
  }

  /** The BSDF pass: the result is a BSDF value. */
  method EmitBsdfNodes(gen: Generator, graph: Graph, used: set<string>, ccx: ClosureContext, ctx: Context)
    returns (lines: seq<Line>, bsdf: string, ctxOut: Context)
    ensures ctxOut == ctx
    ensures var sel := Select(graph.nodes, UsedClosureOf(BSDF, used));
      && |lines| == |sel|
      && (forall i :: 0 <= i < |sel| ==> lines[i] == HwEmitFunctionCall(gen, ctx.(closures := ctx.closures + [ccx]), sel[i], false))
      && (|sel| == 0 ==> bsdf == gen.syntax.defaultValue(BSDF_TYPE, false))
      && (|sel| > 0 ==> bsdf == sel[|sel| - 1].output.variable)
  {
    lines, bsdf, ctxOut := EmitClosureNodes(gen, graph, used, ccx, ctx, BSDF, BSDF_TYPE);
  }

  /** The EDF pass: the result is an EDF value. */
  method EmitEdfNodes(gen: Generator, graph: Graph, used: set<string>, ccx: ClosureContext, ctx: Context)
    returns (lines: seq<Line>, edf: string, ctxOut: Context)
    ensures ctxOut == ctx
    ensures var sel := Select(graph.nodes, UsedClosureOf(EDF, used));
      && |lines| == |sel|
      && (forall i :: 0 <= i < |sel| ==> lines[i] == HwEmitFunctionCall(gen, ctx.(closures := ctx.closures + [ccx]), sel[i], false))
      && (|sel| == 0 ==> edf == gen.syntax.defaultValue(EDF_TYPE, false))
      && (|sel| > 0 ==> edf == sel[|sel| - 1].output.variable)
  {
    lines, edf, ctxOut := EmitClosureNodes(gen, graph, used, ccx, ctx, EDF, EDF_TYPE);
  }

  /**
   Within a closure pass, a selected closure node's implementation is
   invoked, in the pass's context, exactly when the node matches it; otherwise
   only its default-valued output is declared.
   */
  lemma ClosurePassDispatch(gen: Generator, ctx: Context, ccx: ClosureContext, node: Node)
    requires CLOSURE in node.flags
    ensures var inner := ctx.(closures := ctx.closures + [ccx]);
      var line := HwEmitFunctionCall(gen, inner, node, false);
      && (line.Call? <==> ClosureMatches(ccx.kind, node.flags))
      && (line.Call? ==> line.active == Some(ccx.kind))
      && (!line.Call? ==> line == Statement(EmitOutput(gen.syntax, inner, node.output, true, true)))
  {
  }
}
