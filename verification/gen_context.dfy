/**
 The per-generation context: the identifier registry, the cache of node
 implementations, the per-port input and output suffix tables and the
 keyed user-data stacks (one stack per key the generator uses).
 */
module GenContext {
  import opened Base

  // ---------------------------------------------------------------------
  // Decimal rendering of the identifier counter
  // ---------------------------------------------------------------------

  function DigitChar(d: nat): char
    requires d < 10
  {
    "0123456789"[d]
  }

  /** The decimal form of `n`, as the standard library's integer-to-string conversion writes it. */
  function Dec(n: nat): (r: string)
    ensures |r| >= 1
    decreases n
  {
    if n < 10 then [DigitChar(n)] else Dec(n / 10) + [DigitChar(n % 10)]
  }

  function Pow10(k: nat): (r: nat)
    ensures r >= 1
  {
    if k == 0 then 1 else 10 * Pow10(k - 1)
  }

  /** A number at least 10^k has more than k decimal digits. */
  lemma {:induction false} DecLengthBound(n: nat, k: nat)
    requires n >= Pow10(k)
    ensures |Dec(n)| > k
    decreases k
  {
    if k > 0 {
      assert n >= 10;
      assert n / 10 >= Pow10(k - 1);
      DecLengthBound(n / 10, k - 1);
    }
  }

  /** Some length bounds every string of a finite set. */
  lemma {:induction false} LengthBound(names: set<string>) returns (bound: nat)
    ensures forall x :: x in names ==> |x| <= bound
    decreases |names|
  {
    if names == {} {
      bound := 0;
    } else {
      var x :| x in names;
      var rest := LengthBound(names - {x});
      bound := if |x| > rest then |x| else rest;
    }
  }

  // ---------------------------------------------------------------------
  // Identifier registry
  // ---------------------------------------------------------------------

  /** The set of names in use and the monotonic counter used to make fresh ones. */
  datatype Registry = Registry(names: set<string>, index: nat)

  /** Reserves `name`; the empty name and a name already in use are rejected. */
  function AddIdentifier(reg: Registry, name: string): (r: Result<Registry>)
    ensures r.Ok? <==> name != "" && name !in reg.names
    ensures r.Err? ==> r.error == NameConflict(name)
    ensures r.Ok? ==> r.value.names == reg.names + {name} && r.value.index == reg.index + 1
  {
    if name == "" then Err(NameConflict(name))
    else if name in reg.names then Err(NameConflict(name))
    else Ok(Registry(reg.names + {name}, reg.index + 1))
  }

  /**
   Sanitizes `name` and registers the first free candidate: the sanitized
   name itself, or the sanitized name followed by the next counter values
   in turn. The counter is advanced once per candidate tried and once more
   on registration.
   */
  method MakeIdentifier(reg: Registry, name: string, sanitize: string -> string) returns (r: Registry, id: string)
    ensures id !in reg.names
    ensures r.names == reg.names + {id}
    ensures r.index > reg.index
    ensures var s := sanitize(name);
      || (id == s && s !in reg.names && r.index == reg.index + 1)
      || (id == Candidate(s, r.index - 1) && s in reg.names && r.index - 1 > reg.index)
    ensures forall j :: reg.index < j < r.index - 1 ==> Candidate(sanitize(name), j) in reg.names
  {
    var s := sanitize(name);
    id := s;
    var k := reg.index;
    if s in reg.names {
      ghost var bound := LengthBound(reg.names);
      k := k + 1;
      id := Candidate(s, k);
      while id in reg.names
        invariant k > reg.index && id == Candidate(s, k)
        invariant forall j :: reg.index < j < k ==> Candidate(s, j) in reg.names
        decreases Pow10(bound) - k
      {
        CandidateBelowLimit(reg.names, bound, s, k);
        k := k + 1;
        id := Candidate(s, k);
      }
    }
    r := Registry(reg.names + {id}, k + 1);
  }

  /** The name tried for counter value `k`: the sanitized name followed by the decimal counter. */
  function Candidate(s: string, k: nat): string {
    s + Dec(k)
  }

  /** A registered candidate has a counter value below 10^bound. */
  lemma CandidateBelowLimit(names: set<string>, bound: nat, s: string, k: nat)
    requires forall x :: x in names ==> |x| <= bound
    ensures Candidate(s, k) in names ==> k < Pow10(bound)
  {
    if k >= Pow10(bound) {
      DecLengthBound(k, bound);
    }
  }

  /** Forgets every reserved name and resets the counter. */
  function ClearIdentifiers(reg: Registry): (r: Registry)
    ensures r.names == {} && r.index == 0
    ensures forall x :: x != "" ==> AddIdentifier(r, x).Ok?
  {
    Registry({}, 0)
  }

  /** After clearing, exactly the non-empty names can be added. */
  lemma ClearedAcceptsNonEmpty(reg: Registry, name: string)
    ensures AddIdentifier(ClearIdentifiers(reg), name).Ok? <==> name != ""
    ensures name != "" ==> AddIdentifier(ClearIdentifiers(reg), name).value == Registry({name}, 1)
  {
  }

  // ---------------------------------------------------------------------
  // Node implementation cache
  // ---------------------------------------------------------------------

  type ImplCache = map<string, NodeImpl>

  function AddNodeImplementation(cache: ImplCache, name: string, impl: NodeImpl): (r: ImplCache)
    ensures name in r && r[name] == impl
    ensures forall n :: n != name ==> (n in r <==> n in cache)
    ensures forall n :: n != name && n in cache ==> r[n] == cache[n]
  {
    cache[name := impl]
  }

  function FindNodeImplementation(cache: ImplCache, name: string): (r: Option<NodeImpl>)
    ensures r.Some? <==> name in cache
    ensures r.Some? ==> r.value == cache[name]
  {
    if name in cache then Some(cache[name]) else None
  }

  /** A lookup yields the implementation most recently added under that name, or nothing. */
  lemma {:induction false} FindReturnsLatest(adds: seq<(string, NodeImpl)>, name: string)
    ensures FindNodeImplementation(AddAllImplementations(map[], adds), name) == LatestAdded(adds, name)
    decreases |adds|
  {
    if |adds| > 0 {
      FindReturnsLatest(adds[..|adds| - 1], name);
    }
  }

  /** Adds the implementations in order, starting from `cache`. */
  function AddAllImplementations(cache: ImplCache, adds: seq<(string, NodeImpl)>): ImplCache
    decreases |adds|
  {
    if adds == [] then cache
    else AddNodeImplementation(AddAllImplementations(cache, adds[..|adds| - 1]), adds[|adds| - 1].0, adds[|adds| - 1].1)
  }

  /** The implementation of the last addition under `name`, scanning from the end. */
  function LatestAdded(adds: seq<(string, NodeImpl)>, name: string): Option<NodeImpl>
    decreases |adds|
  {
    if adds == [] then None
    else if adds[|adds| - 1].0 == name then Some(adds[|adds| - 1].1)
    else LatestAdded(adds[..|adds| - 1], name)
  }

  // ---------------------------------------------------------------------
  // Port suffix tables
  // ---------------------------------------------------------------------

  /** Suffixes keyed by port identity. */
  type SuffixTable = map<nat, string>

  function SetSuffix(table: SuffixTable, port: nat, suffix: string): (r: SuffixTable)
    ensures GetSuffix(r, port) == suffix
    ensures forall p :: p != port ==> GetSuffix(r, p) == GetSuffix(table, p)
  {
    table[port := suffix]
  }

  function RemoveSuffix(table: SuffixTable, port: nat): (r: SuffixTable)
    ensures GetSuffix(r, port) == ""
    ensures forall p :: p != port ==> GetSuffix(r, p) == GetSuffix(table, p)
  {
    table - {port}
  }

  /** The stored suffix, or the empty string when the port has no entry. */
  function GetSuffix(table: SuffixTable, port: nat): (r: string)
    ensures port !in table ==> r == ""
  {
    if port in table then table[port] else ""
  }

  // ---------------------------------------------------------------------
  // User-data stacks
  // ---------------------------------------------------------------------

  /** The light-shader registry: light type id to bound light node. */
  type LightShaders = map<nat, Node>

  /** The top of a user-data stack, or nothing when no data was pushed. */
  function Top<T>(stack: seq<T>): (r: Option<T>)
    ensures r.Some? <==> |stack| > 0
  {
    if |stack| == 0 then None else Some(stack[|stack| - 1])
  }

  function Push<T>(stack: seq<T>, x: T): (r: seq<T>)
    ensures Top(r) == Some(x) && |r| == |stack| + 1
  {
    stack + [x]
  }

  /** Removes the top entry; popping an empty stack leaves it empty. */
  function Pop<T>(stack: seq<T>): (r: seq<T>)
    ensures |stack| > 0 ==> |r| == |stack| - 1
  {
    if |stack| == 0 then stack else stack[..|stack| - 1]
  }

  /** Push and pop are balanced: popping what was pushed restores the stack. */
  lemma PopAfterPush<T>(stack: seq<T>, x: T)
    ensures Pop(Push(stack, x)) == stack
  {
  }

  // ---------------------------------------------------------------------
  // The context
  // ---------------------------------------------------------------------

  datatype Context = Context(
    ids: Registry,
    impls: ImplCache,
    inputSuffix: SuffixTable,
    outputSuffix: SuffixTable,
    closures: seq<ClosureContext>,
    lights: seq<LightShaders>,
    options: Options)

  /** A context with nothing registered, cached, suffixed or pushed. */
  function EmptyContext(options: Options): (c: Context)
    ensures c.ids.names == {} && c.impls == map[] && c.closures == [] && c.lights == []
  {
    Context(Registry({}, 0), map[], map[], map[], [], [], options)
  }

  function AddInputSuffix(ctx: Context, input: nat, suffix: string): (r: Context)
    ensures GetInputSuffix(r, input) == suffix
    ensures forall p :: p != input ==> GetInputSuffix(r, p) == GetInputSuffix(ctx, p)
    ensures r.outputSuffix == ctx.outputSuffix && r.ids == ctx.ids
    ensures r == ctx.(inputSuffix := r.inputSuffix)
  {
    ctx.(inputSuffix := SetSuffix(ctx.inputSuffix, input, suffix))
  }

  function RemoveInputSuffix(ctx: Context, input: nat): (r: Context)
    ensures GetInputSuffix(r, input) == ""
    ensures forall p :: p != input ==> GetInputSuffix(r, p) == GetInputSuffix(ctx, p)
    ensures r.outputSuffix == ctx.outputSuffix && r.ids == ctx.ids
    ensures r == ctx.(inputSuffix := r.inputSuffix)
  {
    ctx.(inputSuffix := RemoveSuffix(ctx.inputSuffix, input))
  }

  /** The suffix registered for the port, or the empty string when none is. */
  function GetInputSuffix(ctx: Context, input: nat): (r: string)
    ensures input in ctx.inputSuffix ==> r == ctx.inputSuffix[input]
    ensures input !in ctx.inputSuffix ==> r == ""
  {
    GetSuffix(ctx.inputSuffix, input)
  }

  function AddOutputSuffix(ctx: Context, output: nat, suffix: string): (r: Context)
    ensures GetOutputSuffix(r, output) == suffix
    ensures forall p :: p != output ==> GetOutputSuffix(r, p) == GetOutputSuffix(ctx, p)
    ensures r.inputSuffix == ctx.inputSuffix && r.ids == ctx.ids
    ensures r == ctx.(outputSuffix := r.outputSuffix)
  {
    ctx.(outputSuffix := SetSuffix(ctx.outputSuffix, output, suffix))
  }

  function RemoveOutputSuffix(ctx: Context, output: nat): (r: Context)
    ensures GetOutputSuffix(r, output) == ""
    ensures forall p :: p != output ==> GetOutputSuffix(r, p) == GetOutputSuffix(ctx, p)
    ensures r.inputSuffix == ctx.inputSuffix && r.ids == ctx.ids
    ensures r == ctx.(outputSuffix := r.outputSuffix)
  {
    ctx.(outputSuffix := RemoveSuffix(ctx.outputSuffix, output))
  }

  /** The suffix registered for the port, or the empty string when none is. */
  function GetOutputSuffix(ctx: Context, output: nat): (r: string)
    ensures output in ctx.outputSuffix ==> r == ctx.outputSuffix[output]
    ensures output !in ctx.outputSuffix ==> r == ""
  {
    GetSuffix(ctx.outputSuffix, output)
  }

  /** The closure context in effect, if one was pushed. */
  function ActiveClosure(ctx: Context): Option<ClosureContext> {
    Top(ctx.closures)
  }

  /** The light-shader registry, if one was pushed. */
  function CurrentLights(ctx: Context): Option<LightShaders> {
    Top(ctx.lights)
  }
}
