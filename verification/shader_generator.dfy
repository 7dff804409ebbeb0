/**
 The target-independent shader generator: node-by-node emission, the
 conditional-scope skip, upstream value resolution, output and variable
 declarations, identifier seeding, implementation lookup and the token
 replacement pass over a stage.
 */
module ShaderGenerator {
  import opened Base
  import opened GenContext
  import opened Stages

  /**
   The formatting services of a target language. Their code lies outside
   this model, so each is a parameter of the generator: type names, value
   and default-value literals (the flag selects the uniform form), channel
   swizzles, array suffixes, and the names the language reserves.
   */
  datatype Syntax = Syntax(
    typeName: TypeDesc -> string,
    value: (TypeDesc, Value, bool) -> string,
    defaultValue: (TypeDesc, bool) -> string,
    swizzle: (string, TypeDesc, string, TypeDesc) -> string,
    arraySuffix: (TypeDesc, Value) -> string,
    restrictedNames: seq<string>)

  /**
   A generator: its syntax, its token substitutions (token, replacement) in
   table order, the names the implementation factory has creators for, and
   whether it is the hardware variant (which creates hardware source-code and
   compound implementations).
   */
  datatype Generator = Generator(
    syntax: Syntax,
    tokenSubstitutions: seq<(string, string)>,
    factory: set<string>,
    hw: bool)

  // ---------------------------------------------------------------------
  // Function calls and definitions
  // ---------------------------------------------------------------------

  /** The comment left in place of a call omitted because of conditional scope. */
  function OmittedComment(node: Node): string
    requires node.conditional.Some?
  {
    "Omitted node '" + node.name + "'. Only used in conditional node '" + node.conditional.value + "'"
  }

  /** The kind of the closure context in effect, if any. */
  function ActiveKind(ctx: Context): (k: Option<ClosureKind>)
    ensures k.Some? <==> |ctx.closures| > 0
  {
    match ActiveClosure(ctx)
    case None => None
    case Some(c) => Some(c.kind)
  }

  /** The opaque effect of asking a node's implementation to emit its call. */
  function ImplementationCall(ctx: Context, node: Node): Line {
    Call(node.impl, node.name, ActiveKind(ctx))
  }

  /** Whether a scope-checked call of `node` is omitted: it is only used inside a conditional branch. */
  predicate SkippedByScope(node: Node, checkScope: bool) {
    checkScope && node.conditional.Some?
  }

  /**
   Emits the call of one node: a single explanatory comment when the scope
   check is on and the node is only referenced conditionally, otherwise
   whatever the node's implementation emits.
   */
  function EmitFunctionCall(ctx: Context, node: Node, checkScope: bool): (r: Line)
    ensures r.Comment? <==> SkippedByScope(node, checkScope)
    ensures SkippedByScope(node, checkScope) ==> r.text == OmittedComment(node)
    ensures !SkippedByScope(node, checkScope) ==> r.Call? && r.impl == node.impl && r.node == node.name
    ensures r.Call? ==> r.active == ActiveKind(ctx)
  {
    if checkScope && node.conditional.Some? then Comment(OmittedComment(node))
    else ImplementationCall(ctx, node)
  }

  /** Applies a per-node emitter to every node, once each, in stored order. */
  method EmitNodes(nodes: seq<Node>, emit: Node -> Line) returns (lines: seq<Line>)
    ensures |lines| == |nodes|
    ensures forall i :: 0 <= i < |nodes| ==> lines[i] == emit(nodes[i])
  {
    lines := [];
    var i := 0;
    while i < |nodes|
      invariant 0 <= i <= |nodes|
      invariant |lines| == i
      invariant forall k :: 0 <= k < i ==> lines[k] == emit(nodes[k])
    {
      lines := lines + [emit(nodes[i])];
      i := i + 1;
    }
  }

  /** Emits the scope-checked call of every node of the graph, in stored order. */
  method EmitFunctionCalls(ctx: Context, graph: Graph) returns (lines: seq<Line>)
    ensures |lines| == |graph.nodes|
    ensures forall i :: 0 <= i < |graph.nodes| ==> lines[i] == EmitFunctionCall(ctx, graph.nodes[i], true)
  {
    lines := EmitNodes(graph.nodes, (n: Node) => EmitFunctionCall(ctx, n, true));
  }

  /** Asks every node of the graph, in stored order, for its function definition. */
  method EmitFunctionDefinitions(graph: Graph) returns (lines: seq<Line>)
    ensures |lines| == |graph.nodes|
    ensures forall i :: 0 <= i < |graph.nodes| ==> lines[i] == Definition(graph.nodes[i].impl, graph.nodes[i].name)
  {
    lines := EmitNodes(graph.nodes, (n: Node) => Definition(n.impl, n.name));
  }

  // ---------------------------------------------------------------------
  // Declarations and upstream values
  // ---------------------------------------------------------------------

  /**
   The declaration of a block variable: optional qualifier, type name,
   identifier, array suffix for an array with a value, and the initializer
   when one is requested and the literal is not empty.
   */
  function EmitVariableDeclaration(syntax: Syntax, v: Variable, qualifier: string, assignValue: bool): string {
    var head := (if qualifier == "" then "" else qualifier + " ") + syntax.typeName(v.vtype) + " " + v.variable;
    var withArray := if v.vtype.isArray && v.value.Some? then head + syntax.arraySuffix(v.vtype, v.value.value) else head;
    if assignValue then
      var valueStr := if v.value.Some? then syntax.value(v.vtype, v.value.value, true) else syntax.defaultValue(v.vtype, true);
      withArray + (if valueStr == "" then "" else " = " + valueStr)
    else withArray
  }

  /** The uniform literal a declaration with assignment would initialize `v` to. */
  function DeclarationLiteral(syntax: Syntax, v: Variable): string {
    if v.value.Some? then syntax.value(v.vtype, v.value.value, true) else syntax.defaultValue(v.vtype, true)
  }

  /**
   A qualifier is written with one separating space, and only when it is not
   empty. Without qualifier or assignment the declaration is the type name, a
   space, the variable and, for an array with a value, the array suffix.
   */
  lemma DeclarationQualifier(syntax: Syntax, v: Variable, qualifier: string, assignValue: bool)
    ensures qualifier != "" ==>
      EmitVariableDeclaration(syntax, v, qualifier, assignValue) == qualifier + " " + EmitVariableDeclaration(syntax, v, "", assignValue)
    ensures qualifier == "" && !assignValue && !v.vtype.isArray ==>
      EmitVariableDeclaration(syntax, v, qualifier, assignValue) == syntax.typeName(v.vtype) + " " + v.variable
    ensures qualifier == "" && !assignValue ==>
      EmitVariableDeclaration(syntax, v, qualifier, assignValue)
        == syntax.typeName(v.vtype) + " " + v.variable
           + (if v.vtype.isArray && v.value.Some? then syntax.arraySuffix(v.vtype, v.value.value) else "")
  {
  }

  /** Assignment only appends `" = "` and the literal, and only when the literal is not empty. */
  lemma DeclarationAssignment(syntax: Syntax, v: Variable, qualifier: string)
    ensures var lit := DeclarationLiteral(syntax, v);
      EmitVariableDeclaration(syntax, v, qualifier, true)
        == EmitVariableDeclaration(syntax, v, qualifier, false) + (if lit == "" then "" else " = " + lit)
  {
  }

  /**
   The declaration of an output: optionally its type name, its identifier,
   the context's output suffix, and optionally `" = "` with the type's
   default when that default is not empty.
   */
  function EmitOutput(syntax: Syntax, ctx: Context, output: Port, includeType: bool, assignValue: bool): string {
    var named := if includeType then syntax.typeName(output.ptype) + " " + output.variable else output.variable;
    var suffix := GetOutputSuffix(ctx, output.id);
    var withSuffix := if suffix != "" then named + suffix else named;
    if assignValue then
      var value := syntax.defaultValue(output.ptype, false);
      if value != "" then withSuffix + " = " + value else withSuffix
    else withSuffix
  }

  /** The type is written with one separating space, and only when requested; the suffix follows the identifier. */
  lemma OutputDeclarationType(syntax: Syntax, ctx: Context, output: Port, assignValue: bool)
    ensures EmitOutput(syntax, ctx, output, true, assignValue)
      == syntax.typeName(output.ptype) + " " + EmitOutput(syntax, ctx, output, false, assignValue)
    ensures EmitOutput(syntax, ctx, output, false, false) == output.variable + GetOutputSuffix(ctx, output.id)
  {
  }

  /** Assignment only appends `" = "` and the default, and only when the default is not empty. */
  lemma OutputDeclarationAssignment(syntax: Syntax, ctx: Context, output: Port, includeType: bool)
    ensures var d := syntax.defaultValue(output.ptype, false);
      EmitOutput(syntax, ctx, output, includeType, true)
        == EmitOutput(syntax, ctx, output, includeType, false) + (if d == "" then "" else " = " + d)
  {
  }

  /**
   The source text an input evaluates to: for an unconnected input its
   literal value or the type default; for a connected one the upstream
   identifier, swizzled when channels are given, followed by the context's
   input suffix.
   */
  function GetUpstreamResult(syntax: Syntax, ctx: Context, input: Input): string {
    match input.connection
    case None =>
      if input.port.value.Some? then syntax.value(input.port.ptype, input.port.value.value, false)
      else syntax.defaultValue(input.port.ptype, false)
    case Some(upstream) =>
      var variable :=
        if input.channels != "" then syntax.swizzle(upstream.variable, upstream.ptype, input.channels, input.port.ptype)
        else upstream.variable;
      var suffix := GetInputSuffix(ctx, input.port.id);
      if suffix != "" then variable + suffix else variable
  }

  /** An unconnected input yields its literal or the type default, whatever suffixes the context holds. */
  lemma UpstreamUnconnected(syntax: Syntax, ctx: Context, other: Context, input: Input)
    requires input.connection.None?
    ensures GetUpstreamResult(syntax, ctx, input) == GetUpstreamResult(syntax, other, input)
    ensures input.port.value.None? ==> GetUpstreamResult(syntax, ctx, input) == syntax.defaultValue(input.port.ptype, false)
    ensures input.port.value.Some? ==>
      GetUpstreamResult(syntax, ctx, input) == syntax.value(input.port.ptype, input.port.value.value, false)
  {
  }

  /**
   For a connected input the suffix registered for it is appended last, after
   the (possibly swizzled) upstream identifier; without channels the
   identifier is used as is.
   */
  lemma UpstreamConnected(syntax: Syntax, ctx: Context, input: Input, suffix: string)
    requires input.connection.Some?
    ensures GetUpstreamResult(syntax, ctx, input)
      == GetUpstreamResult(syntax, RemoveInputSuffix(ctx, input.port.id), input) + GetInputSuffix(ctx, input.port.id)
    ensures GetUpstreamResult(syntax, AddInputSuffix(ctx, input.port.id, suffix), input)
      == GetUpstreamResult(syntax, RemoveInputSuffix(ctx, input.port.id), input) + suffix
    ensures input.channels == "" ==>
      GetUpstreamResult(syntax, RemoveInputSuffix(ctx, input.port.id), input) == input.connection.value.variable
    ensures input.channels != "" ==>
      GetUpstreamResult(syntax, RemoveInputSuffix(ctx, input.port.id), input)
        == syntax.swizzle(input.connection.value.variable, input.connection.value.ptype, input.channels, input.port.ptype)
  {
  }

  // ---------------------------------------------------------------------
  // Identifier seeding
  // ---------------------------------------------------------------------

  /** Registers the names in order, stopping at the first conflict. */
  function AddIdentifiers(reg: Registry, xs: seq<string>): (r: Result<Registry>)
    ensures r.Ok? <==> Distinct(xs) && forall i :: 0 <= i < |xs| ==> xs[i] != "" && xs[i] !in reg.names
    ensures r.Err? ==> r.error.NameConflict?
    ensures r.Ok? ==> r.value.names == reg.names + Elements(xs) && r.value.index == reg.index + |xs|
    decreases |xs|
  {
    if xs == [] then Ok(reg)
    else
      match AddIdentifier(reg, xs[0])
      case Err(e) => Err(e)
      case Ok(next) =>
        var r := AddIdentifiers(next, xs[1..]);
        DistinctCons(xs);
        assert Elements(xs) == {xs[0]} + Elements(xs[1..]) by {
          assert xs == [xs[0]] + xs[1..];
        }
        assert forall i :: 1 <= i < |xs| ==> xs[i] == xs[1..][i - 1];
        r
  }

  /** The non-empty replacements of a substitution table, in table order. */
  function NonEmptyValues(subs: seq<(string, string)>): (r: seq<string>)
    ensures forall i :: 0 <= i < |r| ==> r[i] != ""
    ensures Elements(r) == set i | 0 <= i < |subs| && subs[i].1 != "" :: subs[i].1
    decreases |subs|
  {
    if subs == [] then []
    else
      var rest := NonEmptyValues(subs[1..]);
      var r := if subs[0].1 == "" then rest else [subs[0].1] + rest;
      var all := set i | 0 <= i < |subs| && subs[i].1 != "" :: subs[i].1;
      var tail := set i | 0 <= i < |subs[1..]| && subs[1..][i].1 != "" :: subs[1..][i].1;
      assert all == (if subs[0].1 == "" then {} else {subs[0].1}) + tail by {
        forall x | x in all ensures x in (if subs[0].1 == "" then {} else {subs[0].1}) + tail {
          var i :| 0 <= i < |subs| && subs[i].1 != "" && subs[i].1 == x;
          if i > 0 {
            assert subs[1..][i - 1] == subs[i];
          }
        }
        forall x | x in tail ensures x in all {
          var i :| 0 <= i < |subs[1..]| && subs[1..][i].1 != "" && subs[1..][i].1 == x;
          assert subs[i + 1] == subs[1..][i];
        }
      }
      assert Elements(r) == (if subs[0].1 == "" then {} else {subs[0].1}) + Elements(rest);
      r
  }

  /** Two sequences concatenate without repetition iff each is repetition-free and they share nothing. */
  lemma DistinctConcat<T>(a: seq<T>, b: seq<T>)
    ensures Distinct(a + b) <==> Distinct(a) && Distinct(b) && Elements(a) !! Elements(b)
  {
    if Distinct(a) && Distinct(b) && Elements(a) !! Elements(b) {
      forall i, j | 0 <= i < j < |a + b| ensures (a + b)[i] != (a + b)[j] {
        if j >= |a| && i < |a| {
          assert (a + b)[i] in Elements(a) && (a + b)[j] in Elements(b);
        }
      }
    }
    if Distinct(a + b) {
      forall i, j | 0 <= i < j < |a| ensures a[i] != a[j] {
        assert a[i] == (a + b)[i] && a[j] == (a + b)[j];
      }
      forall i, j | 0 <= i < j < |b| ensures b[i] != b[j] {
        assert b[i] == (a + b)[|a| + i] && b[j] == (a + b)[|a| + j];
      }
      forall x | x in Elements(a) ensures x !in Elements(b) {
        var i :| 0 <= i < |a| && a[i] == x;
        assert (a + b)[i] == x;
        assert forall j :: 0 <= j < |b| ==> b[j] == (a + b)[|a| + j];
      }
    }
  }

  /**
   Clears the registry, then reserves the language's restricted names and
   every non-empty token replacement. It fails when any of them is empty
   or two of them collide.
   */
  function ResetIdentifiers(gen: Generator, ctx: Context): (r: Result<Context>)
    ensures var xs := gen.syntax.restrictedNames + NonEmptyValues(gen.tokenSubstitutions);
      r.Ok? <==> Distinct(xs) && forall i :: 0 <= i < |xs| ==> xs[i] != ""
    ensures r.Err? ==> r.error.NameConflict?
    ensures r.Ok? ==> r.value == ctx.(ids := r.value.ids)
    ensures r.Ok? ==> r.value.ids.names == Elements(gen.syntax.restrictedNames) + Elements(NonEmptyValues(gen.tokenSubstitutions))
    ensures r.Ok? ==> r.value.ids.index == |gen.syntax.restrictedNames| + |NonEmptyValues(gen.tokenSubstitutions)|
  {
    var restricted := gen.syntax.restrictedNames;
    var values := NonEmptyValues(gen.tokenSubstitutions);
    DistinctConcat(restricted, values);
    assert forall x :: x in Elements(restricted) <==> exists i :: 0 <= i < |restricted| && restricted[i] == x;
    match AddIdentifiers(ClearIdentifiers(ctx.ids), restricted)
    case Err(e) =>
      assert !(Distinct(restricted) && forall i :: 0 <= i < |restricted| ==> restricted[i] != "");
      assert forall i :: 0 <= i < |restricted| ==> (restricted + values)[i] == restricted[i];
      Err(e)
    case Ok(seeded) =>
      match AddIdentifiers(seeded, values)
      case Err(e) => Err(e)
      case Ok(full) => Ok(ctx.(ids := full))
  }

  /**
   Creates a generation context bound to a generator; without a generator
   it fails, and otherwise the registry is seeded as `ResetIdentifiers` does.
   */
  function NewContext(gen: Option<Generator>, options: Options): (r: Result<Context>)
    ensures gen.None? ==> r == Err(ConfigurationError)
    ensures gen.Some? ==> var xs := gen.value.syntax.restrictedNames + NonEmptyValues(gen.value.tokenSubstitutions);
      r.Ok? <==> Distinct(xs) && forall i :: 0 <= i < |xs| ==> xs[i] != ""
    ensures gen.Some? && r.Err? ==> r.error.NameConflict?
    ensures r.Ok? ==> r.value.ids.index == |gen.value.syntax.restrictedNames| + |NonEmptyValues(gen.value.tokenSubstitutions)|
    ensures r.Ok? ==> gen.Some? && r.value.impls == map[] && r.value.closures == [] && r.value.lights == []
    ensures r.Ok? ==> r.value.inputSuffix == map[] && r.value.outputSuffix == map[]
    ensures r.Ok? ==> r.value.options == options
    ensures r.Ok? ==>
      r.value.ids.names == Elements(gen.value.syntax.restrictedNames) + Elements(NonEmptyValues(gen.value.tokenSubstitutions))
  {
    match gen
    case None => Err(ConfigurationError)
    case Some(g) => ResetIdentifiers(g, EmptyContext(options))
  }

  // ---------------------------------------------------------------------
  // Implementation lookup
  // ---------------------------------------------------------------------

  datatype ElementKind = NodeGraphElement | ImplementationElement | OtherElement

  /** A document element an implementation is requested for. */
  datatype Element = Element(name: string, kind: ElementKind)

  /**
   The implementation for an element: the cached one if any; otherwise a
   compound implementation for a node graph, the factory's product or the
   source-code fallback for an implementation element, and an error for
   anything else. A new implementation is cached under the element name.
   */
  function GetImplementation(gen: Generator, element: Element, ctx: Context): (r: Result<(NodeImpl, Context)>)
    ensures element.name in ctx.impls ==> r == Ok((ctx.impls[element.name], ctx))
    ensures element.name !in ctx.impls ==> (r.Err? <==> element.kind == OtherElement)
    ensures r.Err? ==> r.error == InvalidElement(element.name)
    ensures element.name !in ctx.impls && r.Ok? ==>
      && r.value.0.name == element.name
      && r.value.1 == ctx.(impls := ctx.impls[element.name := r.value.0])
      && (element.kind == NodeGraphElement ==> r.value.0.kind == CompoundImpl(gen.hw))
      && (element.kind == ImplementationElement && element.name in gen.factory ==> r.value.0.kind == FactoryImpl)
      && (element.kind == ImplementationElement && element.name !in gen.factory ==> r.value.0.kind == SourceCodeImpl(gen.hw))
  {
    var name := element.name;
    match FindNodeImplementation(ctx.impls, name)
    case Some(impl) => Ok((impl, ctx))
    case None =>
      var created :=
        match element.kind
        case NodeGraphElement => Some(NodeImpl(CompoundImpl(gen.hw), name))
        case ImplementationElement =>
          if name in gen.factory then Some(NodeImpl(FactoryImpl, name)) else Some(NodeImpl(SourceCodeImpl(gen.hw), name))
        case OtherElement => None;
      match created
      case None => Err(InvalidElement(name))
      case Some(impl) => Ok((impl, ctx.(impls := AddNodeImplementation(ctx.impls, name, impl))))
  }

  /** A second request for the same element is a cache hit: same implementation, context unchanged. */
  lemma GetImplementationCached(gen: Generator, element: Element, ctx: Context)
    requires GetImplementation(gen, element, ctx).Ok?
    ensures var (impl, ctx1) := GetImplementation(gen, element, ctx).value;
      GetImplementation(gen, element, ctx1) == Ok((impl, ctx1))
  {
  }

  // ---------------------------------------------------------------------
  // Token replacement
  // ---------------------------------------------------------------------

  /** Substitutes tokens in a variable's name and identifier. */
  function ReplaceVariable(subst: string -> string, v: Variable): (r: Variable)
    ensures r.name == subst(v.name) && r.variable == subst(v.variable)
    ensures r.vtype == v.vtype && r.value == v.value && r.path == v.path
  {
    v.(name := subst(v.name), variable := subst(v.variable))
  }

  function ReplaceBlock(subst: string -> string, b: VariableBlock): (r: VariableBlock)
    ensures r.name == b.name && r.instance == b.instance && |r.vars| == |b.vars|
    ensures forall i :: 0 <= i < |b.vars| ==> r.vars[i] == ReplaceVariable(subst, b.vars[i])
  {
    b.(vars := seq(|b.vars|, i requires 0 <= i < |b.vars| => ReplaceVariable(subst, b.vars[i])))
  }

  function ReplaceBlocks(subst: string -> string, bs: seq<VariableBlock>): (r: seq<VariableBlock>)
    ensures |r| == |bs|
    ensures forall i :: 0 <= i < |bs| ==> r[i] == ReplaceBlock(subst, bs[i])
  {
    seq(|bs|, i requires 0 <= i < |bs| => ReplaceBlock(subst, bs[i]))
  }

  /** Substitutes tokens in the text of an emitted line; implementation output is left as it is. */
  function ReplaceLine(subst: string -> string, l: Line): Line {
    match l
    case Comment(t) => Comment(subst(t))
    case Statement(t) => Statement(subst(t))
    case _ => l
  }

  /**
   The final token pass over a stage: the code, and the name and identifier
   of every variable in its constant, uniform, input and output blocks.
   Nothing else about the stage changes.
   */
  function ReplaceTokens(subst: string -> string, stage: Stage): (r: Stage)
    ensures r.name == stage.name && |r.code| == |stage.code|
    ensures forall i :: 0 <= i < |stage.code| ==> r.code[i] == ReplaceLine(subst, stage.code[i])
    ensures r.constants == ReplaceBlock(subst, stage.constants)
    ensures r.uniforms == ReplaceBlocks(subst, stage.uniforms)
    ensures r.inputs == ReplaceBlocks(subst, stage.inputs)
    ensures r.outputs == ReplaceBlocks(subst, stage.outputs)
  {
    Stage(
      stage.name,
      seq(|stage.code|, i requires 0 <= i < |stage.code| => ReplaceLine(subst, stage.code[i])),
      ReplaceBlock(subst, stage.constants),
      ReplaceBlocks(subst, stage.uniforms),
      ReplaceBlocks(subst, stage.inputs),
      ReplaceBlocks(subst, stage.outputs))
  }

  /** Replacing twice is replacing once when the substitution itself is idempotent. */
  lemma ReplaceTokensIdempotent(subst: string -> string, stage: Stage)
    requires forall x :: subst(subst(x)) == subst(x)
    ensures ReplaceTokens(subst, ReplaceTokens(subst, stage)) == ReplaceTokens(subst, stage)
  {
    var once := ReplaceTokens(subst, stage);
    var twice := ReplaceTokens(subst, once);
    forall b: VariableBlock ensures ReplaceBlock(subst, ReplaceBlock(subst, b)) == ReplaceBlock(subst, b) {
      assert ReplaceBlock(subst, ReplaceBlock(subst, b)).vars == ReplaceBlock(subst, b).vars;
    }
    forall l: Line ensures ReplaceLine(subst, ReplaceLine(subst, l)) == ReplaceLine(subst, l) {
    }
    assert twice.code == once.code;
    assert twice.uniforms == once.uniforms;
    assert twice.inputs == once.inputs;
    assert twice.outputs == once.outputs;
  }

  /** Every variable of the block keeps its name and identifier under the substitution. */
  predicate BlockFixed(subst: string -> string, b: VariableBlock) {
    forall i :: 0 <= i < |b.vars| ==> subst(b.vars[i].name) == b.vars[i].name && subst(b.vars[i].variable) == b.vars[i].variable
  }

  /** A comment or statement keeps its text under the substitution; other lines are never rewritten. */
  predicate LineFixed(subst: string -> string, l: Line) {
    (l.Comment? || l.Statement?) ==> subst(l.text) == l.text
  }

  /** The stage's own texts, names and identifiers hold nothing the substitution changes. */
  predicate TokenFree(subst: string -> string, stage: Stage) {
    && (forall i :: 0 <= i < |stage.code| ==> LineFixed(subst, stage.code[i]))
    && BlockFixed(subst, stage.constants)
    && (forall i :: 0 <= i < |stage.uniforms| ==> BlockFixed(subst, stage.uniforms[i]))
    && (forall i :: 0 <= i < |stage.inputs| ==> BlockFixed(subst, stage.inputs[i]))
    && (forall i :: 0 <= i < |stage.outputs| ==> BlockFixed(subst, stage.outputs[i]))
  }

  lemma ReplaceBlockFixed(subst: string -> string, b: VariableBlock)
    ensures ReplaceBlock(subst, b) == b <==> BlockFixed(subst, b)
  {
    var r := ReplaceBlock(subst, b);
    if BlockFixed(subst, b) {
      assert r.vars == b.vars;
    }
    if r == b {
      forall i | 0 <= i < |b.vars|
        ensures subst(b.vars[i].name) == b.vars[i].name && subst(b.vars[i].variable) == b.vars[i].variable
      {
        assert r.vars[i] == ReplaceVariable(subst, b.vars[i]);
      }
    }
  }

  lemma ReplaceBlocksFixed(subst: string -> string, bs: seq<VariableBlock>)
    ensures ReplaceBlocks(subst, bs) == bs <==> forall i :: 0 <= i < |bs| ==> BlockFixed(subst, bs[i])
  {
    var r := ReplaceBlocks(subst, bs);
    forall i | 0 <= i < |bs| ensures ReplaceBlock(subst, bs[i]) == bs[i] <==> BlockFixed(subst, bs[i]) {
      ReplaceBlockFixed(subst, bs[i]);
    }
    if forall i :: 0 <= i < |bs| ==> BlockFixed(subst, bs[i]) {
      assert r == bs;
    }
    if r == bs {
      forall i | 0 <= i < |bs| ensures BlockFixed(subst, bs[i]) {
        assert r[i] == bs[i];
      }
    }
  }

  /**
   The token pass leaves a stage unchanged exactly when the stage's own
   texts, names and identifiers hold nothing the substitution changes.
   */
  lemma ReplaceTokensNoTokens(subst: string -> string, stage: Stage)
    ensures ReplaceTokens(subst, stage) == stage <==> TokenFree(subst, stage)
  {
    var r := ReplaceTokens(subst, stage);
    ReplaceBlockFixed(subst, stage.constants);
    ReplaceBlocksFixed(subst, stage.uniforms);
    ReplaceBlocksFixed(subst, stage.inputs);
    ReplaceBlocksFixed(subst, stage.outputs);
    forall i | 0 <= i < |stage.code| ensures ReplaceLine(subst, stage.code[i]) == stage.code[i] <==> LineFixed(subst, stage.code[i]) {
    }
    if TokenFree(subst, stage) {
      assert r.code == stage.code;
    }
    if r == stage {
      forall i | 0 <= i < |stage.code| ensures LineFixed(subst, stage.code[i]) {
        assert r.code[i] == stage.code[i];
      }
    }
  }
}
