/**
 Shared vocabulary of the shader-generation model: failure wrappers, the
 error taxonomy, node classifications, type descriptors, shader ports,
 shader graphs and nodes, closure contexts, generation options and the
 lines a stage accumulates.
 */
module Base {

  /** Optional value, the model of a possibly-null pointer or a map miss. */
  datatype Option<+T> = None | Some(value: T)

  /** Every error the generator raises; all of them abort the current call. */
  datatype GenError =
    | ConfigurationError
    | NameConflict(name: string)
    | InvalidElement(name: string)
    | TypeMismatch(name: string)
    | DuplicateBinding(id: nat)
    | DuplicateVariable(block: string, name: string)

  datatype Result<+T> = Ok(value: T) | Err(error: GenError)

  /** The node classification bits used by the generator. */
  datatype Flag =
    | TEXTURE | CLOSURE | SHADER | FILETEXTURE | CONDITIONAL
    | BSDF | BSDF_R | BSDF_T | EDF | SURFACE | LIGHT

  /**
   A classification query succeeds when every requested bit is set, so
   asking for SHADER and SURFACE together needs both.
   */
  predicate HasClassification(flags: set<Flag>, c: set<Flag>) {
    c <= flags
  }

  /** A type descriptor: its name and whether it is an array type. */
  datatype TypeDesc = TypeDesc(name: string, isArray: bool)

  const FILENAME := TypeDesc("filename", false)
  const LIGHTSHADER := TypeDesc("lightshader", false)
  const BSDF_TYPE := TypeDesc("BSDF", false)
  const EDF_TYPE := TypeDesc("EDF", false)
  const MATRIX44 := TypeDesc("matrix44", false)
  const VECTOR3 := TypeDesc("vector3", false)
  const INTEGER := TypeDesc("integer", false)
  const COLOR4 := TypeDesc("color4", false)

  /** Literal values; float matrices stay opaque. */
  datatype Value = StringValue(s: string) | IntValue(i: int) | MatrixValue | OpaqueValue(repr: string)

  /**
   A port of a shader node or graph. The integer `id` stands for the
   port's identity, which the source uses as a key in the per-context
   suffix tables.
   */
  datatype Port = Port(id: nat, name: string, variable: string, ptype: TypeDesc, value: Option<Value>, path: string)

  /** A node input: its own port, the upstream output it is connected to, and a channel swizzle. */
  datatype Input = Input(port: Port, connection: Option<Port>, channels: string)

  /** A graph input socket with the number of internal connections and the editability verdict of the graph. */
  datatype Socket = Socket(port: Port, connections: nat, editable: bool)

  /** The kinds of node implementation the generator can produce. */
  datatype ImplKind = SourceCodeImpl(hw: bool) | CompoundImpl(hw: bool) | FactoryImpl

  /** A node implementation, identified by the element name it was created for. */
  datatype NodeImpl = NodeImpl(kind: ImplKind, name: string)

  /**
   A shader node. `conditional` names the conditional node when the node
   is only referenced inside one branch of it. `subgraph` is the graph
   owned by the node's implementation, if any.
   */
  datatype Node = Node(
    name: string,
    flags: set<Flag>,
    impl: NodeImpl,
    inputs: seq<Input>,
    output: Port,
    conditional: Option<string>,
    subgraph: Option<Graph>)

  /** A shader graph: its own classification, its nodes in stored order and its interface sockets. */
  datatype Graph = Graph(
    name: string,
    flags: set<Flag>,
    nodes: seq<Node>,
    inputSockets: seq<Socket>,
    outputSocket: Port)

  /** A node definition, as far as the generator looks at it: its name and output type. */
  datatype NodeDef = NodeDef(name: string, ntype: TypeDesc)

  /** The hardware closure evaluation contexts. */
  datatype ClosureKind = REFLECTION | TRANSMISSION | INDIRECT | EMISSION

  /** A closure context: kind, function-name suffix and extra (type, name) call arguments. */
  datatype ClosureContext = ClosureContext(kind: ClosureKind, suffix: string, args: seq<(TypeDesc, string)>)

  datatype SpecularEnvironmentMethod = SPECULAR_ENVIRONMENT_NONE | SPECULAR_ENVIRONMENT_FIS | SPECULAR_ENVIRONMENT_PREFILTER

  /** The generation options the modelled code reads or writes. */
  datatype Options = Options(
    hwSpecularEnvironmentMethod: SpecularEnvironmentMethod,
    hwTransparency: bool,
    hwMaxActiveLightSources: nat)

  /**
   One emitted unit of stage source. `Statement` is a code line closed by
   the statement terminator. `Call` and `Definition` stand for the opaque
   output of a node implementation; `active` records the closure context in
   effect when the implementation was invoked.
   */
  datatype Line =
    | Comment(text: string)
    | Statement(text: string)
    | Call(impl: NodeImpl, node: string, active: Option<ClosureKind>)
    | Definition(impl: NodeImpl, node: string)
    | LineBreak

  /** The elements of a sequence as a set. */
  function Elements<T>(xs: seq<T>): set<T> {
    set x | x in xs
  }

  /** No element occurs twice. */
  predicate Distinct<T(==)>(xs: seq<T>) {
    forall i, j :: 0 <= i < j < |xs| ==> xs[i] != xs[j]
  }

  /** A non-empty sequence is without repetitions exactly when its tail is and no later element repeats the first. */
  lemma DistinctCons<T>(xs: seq<T>)
    requires xs != []
    ensures Distinct(xs) <==> Distinct(xs[1..]) && forall i :: 1 <= i < |xs| ==> xs[i] != xs[0]
  {
    var rest := xs[1..];
    assert forall i :: 0 <= i < |rest| ==> rest[i] == xs[i + 1];
    if Distinct(rest) && forall i :: 1 <= i < |xs| ==> xs[i] != xs[0] {
      forall i, j | 0 <= i < j < |xs| ensures xs[i] != xs[j] {
        if i > 0 {
          assert rest[i - 1] != rest[j - 1];
        }
      }
    }
  }
}
