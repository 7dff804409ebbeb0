/**
 The renderer's light handler: it finds the light nodes of a document,
 numbers their node definitions, binds one light shader per numbered
 definition and keeps the active-light option large enough.
 */
module LightHandler {
  import opened Base
  import opened GenContext
  import opened HwLights

  /** A document node: its name, its output type and the name of the node definition it resolves to, if any. */
  datatype DocNode = DocNode(name: string, ntype: TypeDesc, nodeDef: Option<string>)

  /** A document: its nodes in document order and its node definitions by name. */
  datatype Document = Document(nodes: seq<DocNode>, nodeDefs: map<string, NodeDef>)

  /** The persistent map from node definition name to light type id. */
  type IdMap = map<string, nat>

  // ---------------------------------------------------------------------------
  // Finding lights
  // ---------------------------------------------------------------------------

  /** The light-shader typed nodes among `nodes`, in their order. */
  function LightsIn(nodes: seq<DocNode>): (r: seq<DocNode>)
    ensures forall n :: n in r <==> n in nodes && n.ntype == LIGHTSHADER
    ensures |r| <= |nodes|
  {
    if nodes == [] then []
    else
      var rest := LightsIn(nodes[..|nodes| - 1]);
      var last := nodes[|nodes| - 1];
      assert forall n :: n in nodes <==> n in nodes[..|nodes| - 1] || n == last;
      if last.ntype == LIGHTSHADER then rest + [last] else rest
  }

  /**
   The lights of a document: exactly its light-shader typed nodes. The
   result does not depend on any earlier list, which the source clears.
   */
  function FindLights(doc: Document): (lights: seq<DocNode>)
    ensures forall n :: n in lights <==> n in doc.nodes && n.ntype == LIGHTSHADER
  {
    LightsIn(doc.nodes)
  }

  /** Finding lights keeps document order: the lights of a concatenation are the concatenation of the lights. */
  lemma {:induction false} LightsInConcat(a: seq<DocNode>, b: seq<DocNode>)
    ensures LightsIn(a + b) == LightsIn(a) + LightsIn(b)
    decreases |b|
  {
    if b == [] {
      assert a + b == a;
    } else {
      var b' := b[..|b| - 1];
      assert (a + b)[..|a + b| - 1] == a + b';
      assert (a + b)[|a + b| - 1] == b[|b| - 1];
      LightsInConcat(a, b');
    }
  }

  // ---------------------------------------------------------------------------
  // Numbering node definitions
  // ---------------------------------------------------------------------------

  /** The node definition names the nodes resolve to. */
  function DefNames(nodes: seq<DocNode>): set<string> {
    set n | n in nodes && n.nodeDef.Some? :: n.nodeDef.value
  }

  /**
   Reference order of numbering: the node definition names not in `known`,
   each once, in the order of their first occurrence.
   */
  function NewDefs(nodes: seq<DocNode>, known: set<string>): (r: seq<string>)
    ensures Distinct(r)
    ensures Elements(r) == DefNames(nodes) - known
  {
    if nodes == [] then []
    else
      var init := nodes[..|nodes| - 1];
      var rest := NewDefs(init, known);
      var last := nodes[|nodes| - 1];
      DefNamesSnoc(nodes);
      if last.nodeDef.Some? && last.nodeDef.value !in known && last.nodeDef.value !in rest
      then
        assert Elements(rest + [last.nodeDef.value]) == Elements(rest) + {last.nodeDef.value};
        rest + [last.nodeDef.value]
      else rest
  }

  /**
   Walks the nodes in order and gives every node definition name not yet
   in the map the next id, starting at `start`; returns the map and the
   next unused id.
   */
  function Assign(nodes: seq<DocNode>, ids: IdMap, start: nat): (r: (IdMap, nat))
    ensures r.0.Keys == ids.Keys + DefNames(nodes)
    ensures r.1 == start + |NewDefs(nodes, ids.Keys)|
    ensures forall k :: k in ids ==> r.0[k] == ids[k]
    ensures forall i :: 0 <= i < |NewDefs(nodes, ids.Keys)| ==>
      NewDefs(nodes, ids.Keys)[i] in r.0 && r.0[NewDefs(nodes, ids.Keys)[i]] == start + i
  {
    if nodes == [] then (ids, start)
    else
      var init := nodes[..|nodes| - 1];
      var last := nodes[|nodes| - 1];
      var prev := Assign(init, ids, start);
      DefNamesSnoc(nodes);
      var isNew := last.nodeDef.Some? && last.nodeDef.value !in prev.0;
      assert last.nodeDef.Some? ==>
        (last.nodeDef.value in NewDefs(init, ids.Keys) <==> last.nodeDef.value in Elements(NewDefs(init, ids.Keys)));
      assert isNew <==> last.nodeDef.Some? && last.nodeDef.value !in ids.Keys && last.nodeDef.value !in NewDefs(init, ids.Keys);
      if isNew then AssignStep(prev.0, NewDefs(init, ids.Keys), ids, start, last.nodeDef.value); (prev.0[last.nodeDef.value := prev.1], prev.1 + 1)
      else prev
  }

  /** The step of `Assign` that numbers a fresh name keeps the earlier numbering. */
  lemma AssignStep(m: IdMap, done: seq<string>, ids: IdMap, start: nat, d: string)
    requires forall k :: k in ids ==> k in m && m[k] == ids[k]
    requires forall i :: 0 <= i < |done| ==> done[i] in m && m[done[i]] == start + i
    requires d !in m
    ensures forall k :: k in ids ==> m[d := start + |done|][k] == ids[k]
    ensures forall i :: 0 <= i < |done + [d]| ==> (done + [d])[i] in m[d := start + |done|] && m[d := start + |done|][(done + [d])[i]] == start + i
  {
    var m' := m[d := start + |done|];
    forall i | 0 <= i < |done + [d]| ensures (done + [d])[i] in m' && m'[(done + [d])[i]] == start + i {
      if i < |done| {
        assert (done + [d])[i] == done[i];
      }
    }
  }

  /** The node definition names of a non-empty sequence: those of its prefix and of its last node. */
  lemma DefNamesSnoc(nodes: seq<DocNode>)
    requires nodes != []
    ensures DefNames(nodes) == DefNames(nodes[..|nodes| - 1])
      + (if nodes[|nodes| - 1].nodeDef.Some? then {nodes[|nodes| - 1].nodeDef.value} else {})
  {
    assert forall n :: n in nodes <==> n in nodes[..|nodes| - 1] || n == nodes[|nodes| - 1];
  }

  /**
   Numbering as the light handler does it: new names get ids counting up
   from 1 on every call, names already in the map keep theirs, nodes
   without a node definition are skipped.
   */
  function MapNodeDefToIdentifiers(nodes: seq<DocNode>, ids: IdMap): (r: IdMap)
    ensures r.Keys == ids.Keys + DefNames(nodes)
    ensures forall k :: k in ids ==> r[k] == ids[k]
    ensures forall i :: 0 <= i < |NewDefs(nodes, ids.Keys)| ==>
      NewDefs(nodes, ids.Keys)[i] in r && r[NewDefs(nodes, ids.Keys)[i]] == i + 1
  {
    Assign(nodes, ids, 1).0
  }

  /**
   Numbering that continues after the ids already handed out: new names get
   ids counting up from one past the size of the map.
   */
  function MapNodeDefToIdentifiersContinuing(nodes: seq<DocNode>, ids: IdMap): (r: IdMap)
    ensures r.Keys == ids.Keys + DefNames(nodes)
    ensures forall k :: k in ids ==> r[k] == ids[k]
    ensures forall i :: 0 <= i < |NewDefs(nodes, ids.Keys)| ==>
      NewDefs(nodes, ids.Keys)[i] in r && r[NewDefs(nodes, ids.Keys)[i]] == |ids| + i + 1
  {
    Assign(nodes, ids, |ids| + 1).0
  }

  /** No two names share an id. */
  predicate Injective(m: IdMap) {
    forall a, b :: a in m && b in m && a != b ==> m[a] != m[b]
  }

  /** The ids are exactly 1..|m|, each used once. */
  predicate Dense(m: IdMap) {
    Injective(m) && forall k :: k in m ==> 1 <= m[k] <= |m|
  }

  /** A sequence without repetitions has as many elements as its set. */
  lemma {:induction false} DistinctCard<T>(xs: seq<T>)
    requires Distinct(xs)
    ensures |Elements(xs)| == |xs|
  {
    if xs != [] {
      var init := xs[..|xs| - 1];
      assert Distinct(init);
      DistinctCard(init);
      assert Elements(xs) == Elements(init) + {xs[|xs| - 1]};
      assert xs[|xs| - 1] !in Elements(init);
    }
  }

  /** The position of an element in a sequence. */
  lemma IndexOf<T>(xs: seq<T>, x: T) returns (i: nat)
    requires x in Elements(xs)
    ensures i < |xs| && xs[i] == x
  {
    i :| 0 <= i < |xs| && xs[i] == x;
  }

  /**
   A dense map extended by distinct fresh names numbered consecutively from
   one past its size is dense again.
   */
  lemma ExtensionDense(ids: IdMap, r: IdMap, d: seq<string>)
    requires Dense(ids) && Distinct(d)
    requires r.Keys == ids.Keys + Elements(d) && ids.Keys * Elements(d) == {}
    requires forall k :: k in ids ==> r[k] == ids[k]
    requires forall i :: 0 <= i < |d| ==> d[i] in r && r[d[i]] == |ids| + i + 1
    ensures Dense(r)
  {
    DistinctCard(d);
    assert |r.Keys| == |ids.Keys| + |Elements(d)|;
    forall k | k in r ensures 1 <= r[k] <= |r| {
      if k !in ids {
        var i := IndexOf(d, k);
      }
    }
    ExtensionInjective(ids, r, d);
  }

  /** The extension gives different names different ids: old ids stay at most the old size, new ones lie above it. */
  lemma ExtensionInjective(ids: IdMap, r: IdMap, d: seq<string>)
    requires Dense(ids) && Distinct(d)
    requires r.Keys == ids.Keys + Elements(d)
    requires forall k :: k in ids ==> r[k] == ids[k]
    requires forall i :: 0 <= i < |d| ==> d[i] in r && r[d[i]] == |ids| + i + 1
    ensures Injective(r)
  {
    forall a, b | a in r && b in r && a != b ensures r[a] != r[b] {
      if a !in ids {
        var i := IndexOf(d, a);
        if b !in ids {
          var j := IndexOf(d, b);
        }
      } else if b !in ids {
        var j := IndexOf(d, b);
      }
    }
  }

  /** Where the map starts empty, the numbering is 1..k over the distinct names in first-seen order. */
  lemma FirstNumberingDense(nodes: seq<DocNode>)
    ensures Dense(MapNodeDefToIdentifiers(nodes, map[]))
    ensures MapNodeDefToIdentifiers(nodes, map[]).Keys == DefNames(nodes)
  {
    var empty: IdMap := map[];
    ExtensionDense(empty, MapNodeDefToIdentifiers(nodes, empty), NewDefs(nodes, {}));
  }

  /** Continuing the numbering keeps the ids dense, so every name keeps an id no other name has. */
  lemma ContinuingPreservesDense(nodes: seq<DocNode>, ids: IdMap)
    requires Dense(ids)
    ensures Dense(MapNodeDefToIdentifiersContinuing(nodes, ids))
  {
    var d := NewDefs(nodes, ids.Keys);
    var r := MapNodeDefToIdentifiersContinuing(nodes, ids);
    assert r.Keys == ids.Keys + Elements(d);
    ExtensionDense(ids, r, d);
  }

  /**
   The numbering as written collides across calls: after one definition
   has id 1, a later call that sees a new definition gives it id 1 as well.
   */
  lemma NumberingCollides()
    ensures MapNodeDefToIdentifiers([DocNode("b", LIGHTSHADER, Some("ND_b"))], map["ND_a" := 1])
      == map["ND_a" := 1, "ND_b" := 1]
    ensures !Injective(MapNodeDefToIdentifiers([DocNode("b", LIGHTSHADER, Some("ND_b"))], map["ND_a" := 1]))
  {
    var nodes := [DocNode("b", LIGHTSHADER, Some("ND_b"))];
    var ids := map["ND_a" := 1];
    assert DefNames(nodes) == {"ND_b"};
    assert NewDefs(nodes, ids.Keys) == ["ND_b"];
    var r := MapNodeDefToIdentifiers(nodes, ids);
    assert r.Keys == {"ND_a", "ND_b"};
    assert r["ND_a"] == 1 && r["ND_b"] == 1;
  }

  // ---------------------------------------------------------------------------
  // Registering lights
  // ---------------------------------------------------------------------------

  /** The ids bound for the names of `order` that the document resolves. */
  function BoundIds(defs: map<string, NodeDef>, ids: IdMap, order: seq<string>): set<nat>
    requires forall i :: 0 <= i < |order| ==> order[i] in ids
  {
    set i | 0 <= i < |order| && order[i] in defs :: ids[order[i]]
  }

  /**
   Binding the resolved names of `order` on top of the ids in `bound`
   succeeds: every resolved definition is light-shader typed, and the ids
   are fresh and pairwise different.
   */
  predicate Bindable(bound: set<nat>, defs: map<string, NodeDef>, ids: IdMap, order: seq<string>)
    requires forall i :: 0 <= i < |order| ==> order[i] in ids
  {
    && (forall i :: 0 <= i < |order| && order[i] in defs ==> defs[order[i]].ntype == LIGHTSHADER && ids[order[i]] !in bound)
    && (forall i, j :: 0 <= i < j < |order| && order[i] in defs && order[j] in defs ==> ids[order[i]] != ids[order[j]])
  }

  /**
   Binds, in the given order, a light shader for every name the document
   resolves to a node definition, under that name's id; names without a
   definition are skipped and the first failing bind aborts.
   */
  function BindAll(ctx: Context, defs: map<string, NodeDef>, ids: IdMap, order: seq<string>, instantiate: NodeDef -> Node): (r: Result<Context>)
    requires forall i :: 0 <= i < |order| ==> order[i] in ids
    ensures r.Ok? ==> r.value == ctx.(lights := r.value.lights)
    ensures r.Ok? ==> Bindings(r.value).Keys == Bindings(ctx).Keys + BoundIds(defs, ids, order)
    ensures r.Ok? ==> forall id :: id in Bindings(ctx) ==> Bindings(r.value)[id] == Bindings(ctx)[id]
    ensures r.Ok? ==> forall i :: 0 <= i < |order| && order[i] in defs ==>
      ids[order[i]] in Bindings(r.value) && Bindings(r.value)[ids[order[i]]] == LightNode(instantiate(defs[order[i]]))
    ensures r.Err? ==> r.error.TypeMismatch? || r.error.DuplicateBinding?
    ensures r.Err? && r.error.DuplicateBinding? ==>
      exists i :: 0 <= i < |order| && order[i] in defs && ids[order[i]] == r.error.id
    ensures r.Err? && (forall i :: 0 <= i < |order| && order[i] in defs ==> defs[order[i]].ntype == LIGHTSHADER) ==>
      r.error.DuplicateBinding?
    decreases |order|
  {
    if order == [] then Ok(ctx)
    else
      var rest := order[1..];
      assert forall i :: 0 <= i < |rest| ==> rest[i] == order[i + 1];
      if order[0] !in defs then
        var r := BindAll(ctx, defs, ids, rest, instantiate);
        assert BoundIds(defs, ids, order) == BoundIds(defs, ids, rest) by {
          BoundIdsCons(defs, ids, order);
        }
        r
      else
        var nodeDef := defs[order[0]];
        match BindLightShader(ctx, nodeDef, ids[order[0]], instantiate(nodeDef))
        case Err(e) => Err(e)
        case Ok(c) =>
          var r := BindAll(c, defs, ids, rest, instantiate);
          BindAllLift(ctx, c, defs, ids, order, instantiate, r);
          r
  }

  /** What binding the rest after the first name gives, stated for the whole order. */
  lemma BindAllLift(ctx: Context, c: Context, defs: map<string, NodeDef>, ids: IdMap, order: seq<string>,
                    instantiate: NodeDef -> Node, r: Result<Context>)
    requires order != [] && order[0] in defs && forall i :: 0 <= i < |order| ==> order[i] in ids
    requires c == ctx.(lights := c.lights)
    requires Bindings(c) == Bindings(ctx)[ids[order[0]] := LightNode(instantiate(defs[order[0]]))]
    requires ids[order[0]] !in Bindings(ctx)
    requires r.Ok? ==> r.value == c.(lights := r.value.lights)
    requires r.Ok? ==> Bindings(r.value).Keys == Bindings(c).Keys + BoundIds(defs, ids, order[1..])
    requires r.Ok? ==> forall id :: id in Bindings(c) ==> Bindings(r.value)[id] == Bindings(c)[id]
    requires r.Ok? ==> forall i :: 0 <= i < |order[1..]| && order[1..][i] in defs ==>
      ids[order[1..][i]] in Bindings(r.value) && Bindings(r.value)[ids[order[1..][i]]] == LightNode(instantiate(defs[order[1..][i]]))
    requires r.Err? && r.error.DuplicateBinding? ==>
      exists i :: 0 <= i < |order[1..]| && order[1..][i] in defs && ids[order[1..][i]] == r.error.id
    ensures r.Ok? ==> r.value == ctx.(lights := r.value.lights)
    ensures r.Ok? ==> Bindings(r.value).Keys == Bindings(ctx).Keys + BoundIds(defs, ids, order)
    ensures r.Ok? ==> forall id :: id in Bindings(ctx) ==> Bindings(r.value)[id] == Bindings(ctx)[id]
    ensures r.Ok? ==> forall i :: 0 <= i < |order| && order[i] in defs ==>
      ids[order[i]] in Bindings(r.value) && Bindings(r.value)[ids[order[i]]] == LightNode(instantiate(defs[order[i]]))
    ensures r.Err? && r.error.DuplicateBinding? ==>
      exists i :: 0 <= i < |order| && order[i] in defs && ids[order[i]] == r.error.id
  {
    var rest := order[1..];
    assert forall i :: 0 <= i < |rest| ==> rest[i] == order[i + 1];
    BoundIdsCons(defs, ids, order);
    if r.Ok? {
      forall i | 0 <= i < |order| && order[i] in defs
        ensures ids[order[i]] in Bindings(r.value) && Bindings(r.value)[ids[order[i]]] == LightNode(instantiate(defs[order[i]]))
      {
        if i > 0 {
          assert rest[i - 1] == order[i];
        }
      }
    }
    if r.Err? && r.error.DuplicateBinding? {
      var k :| 0 <= k < |rest| && rest[k] in defs && ids[rest[k]] == r.error.id;
      assert order[k + 1] == rest[k];
    }
  }

  /** The bound ids of a non-empty order: the first name's, if resolved, and the rest's. */
  lemma BoundIdsCons(defs: map<string, NodeDef>, ids: IdMap, order: seq<string>)
    requires order != [] && forall i :: 0 <= i < |order| ==> order[i] in ids
    ensures BoundIds(defs, ids, order) == (if order[0] in defs then {ids[order[0]]} else {}) + BoundIds(defs, ids, order[1..])
  {
    var rest := order[1..];
    assert forall i :: 0 <= i < |rest| ==> rest[i] == order[i + 1];
    forall id | id in BoundIds(defs, ids, order) ensures id in (if order[0] in defs then {ids[order[0]]} else {}) + BoundIds(defs, ids, rest) {
      var i :| 0 <= i < |order| && order[i] in defs && ids[order[i]] == id;
      if i > 0 {
        assert rest[i - 1] == order[i];
      }
    }
  }

  /** Bindability of a non-empty order, split into its first name and the rest. */
  lemma BindableCons(bound: set<nat>, defs: map<string, NodeDef>, ids: IdMap, order: seq<string>)
    requires order != [] && forall i :: 0 <= i < |order| ==> order[i] in ids
    ensures Bindable(bound, defs, ids, order) <==>
      if order[0] in defs then
        defs[order[0]].ntype == LIGHTSHADER && ids[order[0]] !in bound && Bindable(bound + {ids[order[0]]}, defs, ids, order[1..])
      else Bindable(bound, defs, ids, order[1..])
  {
    var rest := order[1..];
    assert forall i :: 0 <= i < |rest| ==> rest[i] == order[i + 1];
    if order[0] in defs && Bindable(bound, defs, ids, order) {
      forall i | 0 <= i < |rest| && rest[i] in defs ensures ids[rest[i]] != ids[order[0]] {
        assert 0 < i + 1 < |order|;
      }
    }
    if Bindable(bound + (if order[0] in defs then {ids[order[0]]} else {}), defs, ids, rest) {
      forall i, j | 0 <= i < j < |order| && order[i] in defs && order[j] in defs ensures ids[order[i]] != ids[order[j]] {
        if i > 0 {
          assert rest[i - 1] == order[i] && rest[j - 1] == order[j];
        } else {
          assert rest[j - 1] == order[j];
        }
      }
    }
  }

  /** Binding all succeeds exactly when the order is bindable on top of the current bindings. */
  lemma {:induction false} BindAllOkIff(ctx: Context, defs: map<string, NodeDef>, ids: IdMap, order: seq<string>, instantiate: NodeDef -> Node)
    requires forall i :: 0 <= i < |order| ==> order[i] in ids
    ensures BindAll(ctx, defs, ids, order, instantiate).Ok? <==> Bindable(Bindings(ctx).Keys, defs, ids, order)
    decreases |order|
  {
    if order != [] {
      var rest := order[1..];
      assert forall i :: 0 <= i < |rest| ==> rest[i] == order[i + 1];
      BindableCons(Bindings(ctx).Keys, defs, ids, order);
      if order[0] !in defs {
        BindAllOkIff(ctx, defs, ids, rest, instantiate);
      } else {
        var nodeDef := defs[order[0]];
        var step := BindLightShader(ctx, nodeDef, ids[order[0]], instantiate(nodeDef));
        if step.Ok? {
          assert Bindings(step.value).Keys == Bindings(ctx).Keys + {ids[order[0]]};
          BindAllOkIff(step.value, defs, ids, rest, instantiate);
        }
      }
    }
  }

  /** How new node definitions are numbered: restarting at 1, or continuing after the existing ids. */
  datatype Numbering = RestartAtOne | ContinueAfterExisting

  function Renumber(numbering: Numbering, nodes: seq<DocNode>, ids: IdMap): (r: IdMap)
    ensures r.Keys == ids.Keys + DefNames(nodes)
  {
    match numbering
    case RestartAtOne => MapNodeDefToIdentifiers(nodes, ids)
    case ContinueAfterExisting => MapNodeDefToIdentifiersContinuing(nodes, ids)
  }

  /** The light count as the source's 32-bit unsigned cast of the list size. */
  function LightCount(lights: seq<DocNode>): (n: nat)
    ensures n < 0x1_0000_0000
    ensures |lights| < 0x1_0000_0000 ==> n == |lights|
  {
    |lights| % 0x1_0000_0000
  }

  /** The handler's id map and the context after a registration. */
  datatype Registration = Registration(ids: IdMap, ctx: Context)

  /**
   The binding half of registration, on a context whose bindings were
   cleared: for a non-empty list, numbers the lights' definitions into the
   id map and binds every name the document resolves, in map order.
   */
  function BindRegistered(numbering: Numbering, ids: IdMap, doc: Document, lights: seq<DocNode>, cleared: Context,
                          order: seq<string>, instantiate: NodeDef -> Node): (r: Result<Registration>)
    requires Bindings(cleared) == map[]
    requires lights != [] ==> Distinct(order) && Elements(order) == ids.Keys + DefNames(lights)
    ensures r.Ok? <==> lights == [] || Bindable({}, doc.nodeDefs, Renumber(numbering, lights, ids), order)
    ensures lights == [] ==> r == Ok(Registration(ids, cleared))
    ensures lights != [] && r.Ok? ==> r.value.ids == Renumber(numbering, lights, ids)
    ensures r.Ok? && lights != [] ==> Bindings(r.value.ctx).Keys == BoundIds(doc.nodeDefs, r.value.ids, order)
    ensures r.Ok? && lights != [] ==> forall i :: 0 <= i < |order| && order[i] in doc.nodeDefs ==>
      r.value.ids[order[i]] in Bindings(r.value.ctx)
      && Bindings(r.value.ctx)[r.value.ids[order[i]]] == LightNode(instantiate(doc.nodeDefs[order[i]]))
    ensures r.Ok? ==> r.value.ctx == cleared.(lights := r.value.ctx.lights)
    ensures r.Err? ==> lights != [] && (r.error.TypeMismatch? || r.error.DuplicateBinding?)
    ensures r.Err? && (forall i :: 0 <= i < |order| && order[i] in doc.nodeDefs ==> doc.nodeDefs[order[i]].ntype == LIGHTSHADER) ==>
      r.error.DuplicateBinding?
  {
    if lights == [] then Ok(Registration(ids, cleared))
    else
      var m := Renumber(numbering, lights, ids);
      assert forall i :: 0 <= i < |order| ==> order[i] in m;
      assert BindAll(cleared, doc.nodeDefs, m, order, instantiate).Ok? <==> Bindable({}, doc.nodeDefs, m, order) by {
        BindAllOkIff(cleared, doc.nodeDefs, m, order, instantiate);
      }
      match BindAll(cleared, doc.nodeDefs, m, order, instantiate)
      case Err(e) => Err(e)
      case Ok(c) => Ok(Registration(m, c))
  }

  /**
   Registers the lights of a document. All existing bindings are removed
   first. For a non-empty list, the node definitions of the lights are
   numbered into the handler's persistent id map, and every name in the
   map that the document resolves is bound; `order` is the enumeration
   order of the map. Finally the active-light option is raised to the
   light count if it is smaller, and never lowered.
   */
  function RegisterLights(numbering: Numbering, ids: IdMap, doc: Document, lights: seq<DocNode>, ctx: Context,
                          order: seq<string>, instantiate: NodeDef -> Node): (r: Result<Registration>)
    requires lights != [] ==> Distinct(order) && Elements(order) == ids.Keys + DefNames(lights)
    ensures r.Ok? <==> lights == [] || Bindable({}, doc.nodeDefs, Renumber(numbering, lights, ids), order)
    ensures lights == [] ==> r.Ok? && r.value.ids == ids && Bindings(r.value.ctx) == map[]
    ensures lights != [] && r.Ok? ==> r.value.ids == Renumber(numbering, lights, ids)
    ensures r.Ok? && lights != [] ==> Bindings(r.value.ctx).Keys == BoundIds(doc.nodeDefs, r.value.ids, order)
    ensures r.Ok? && lights != [] ==> forall i :: 0 <= i < |order| && order[i] in doc.nodeDefs ==>
      r.value.ids[order[i]] in Bindings(r.value.ctx)
      && Bindings(r.value.ctx)[r.value.ids[order[i]]] == LightNode(instantiate(doc.nodeDefs[order[i]]))
    ensures r.Ok? ==> r.value.ctx.options.hwMaxActiveLightSources >= ctx.options.hwMaxActiveLightSources
    ensures r.Ok? ==> r.value.ctx.options.hwMaxActiveLightSources >= LightCount(lights)
    ensures r.Ok? ==> r.value.ctx.options.hwMaxActiveLightSources in {ctx.options.hwMaxActiveLightSources, LightCount(lights)}
    ensures r.Ok? ==> r.value.ctx == ctx.(lights := r.value.ctx.lights, options := r.value.ctx.options)
    ensures r.Ok? ==> r.value.ctx.options == ctx.options.(hwMaxActiveLightSources := r.value.ctx.options.hwMaxActiveLightSources)
    ensures r.Err? ==> lights != [] && (r.error.TypeMismatch? || r.error.DuplicateBinding?)
    ensures r.Err? && (forall i :: 0 <= i < |order| && order[i] in doc.nodeDefs ==> doc.nodeDefs[order[i]].ntype == LIGHTSHADER) ==>
      r.error.DuplicateBinding?
  {
    match BindRegistered(numbering, ids, doc, lights, UnbindLightShaders(ctx), order, instantiate)
    case Err(e) => Err(e)
    case Ok(reg) => Ok(reg.(ctx := RaiseLightCount(reg.ctx, lights)))
  }

  /** Raises the active-light option to the light count when it is smaller; it is never lowered. */
  function RaiseLightCount(ctx: Context, lights: seq<DocNode>): (r: Context)
    ensures r.options.hwMaxActiveLightSources >= ctx.options.hwMaxActiveLightSources
    ensures r.options.hwMaxActiveLightSources >= LightCount(lights)
    ensures r.options.hwMaxActiveLightSources in {ctx.options.hwMaxActiveLightSources, LightCount(lights)}
    ensures r == ctx.(options := ctx.options.(hwMaxActiveLightSources := r.options.hwMaxActiveLightSources))
  {
    var count := LightCount(lights);
    if count > ctx.options.hwMaxActiveLightSources then ctx.(options := ctx.options.(hwMaxActiveLightSources := count)) else ctx
  }

  /**
   With the numbering continued after the existing ids, registration never
   collides: from a dense id map, and with every resolved definition
   light-shader typed, it succeeds and leaves the id map dense.
   */
  lemma ContinuingRegistrationSucceeds(ids: IdMap, doc: Document, lights: seq<DocNode>, ctx: Context,
                                       order: seq<string>, instantiate: NodeDef -> Node)
    requires Dense(ids)
    requires lights != [] ==> Distinct(order) && Elements(order) == ids.Keys + DefNames(lights)
    requires forall i :: 0 <= i < |order| && order[i] in doc.nodeDefs ==> doc.nodeDefs[order[i]].ntype == LIGHTSHADER
    ensures RegisterLights(ContinueAfterExisting, ids, doc, lights, ctx, order, instantiate).Ok?
    ensures Dense(RegisterLights(ContinueAfterExisting, ids, doc, lights, ctx, order, instantiate).value.ids)
  {
    if lights != [] {
      var m := Renumber(ContinueAfterExisting, lights, ids);
      ContinuingPreservesDense(lights, ids);
      assert forall i :: 0 <= i < |order| ==> order[i] in m;
      forall i, j | 0 <= i < j < |order| && order[i] in doc.nodeDefs && order[j] in doc.nodeDefs
        ensures m[order[i]] != m[order[j]]
      {
        assert order[i] != order[j];
      }
      assert Bindable({}, doc.nodeDefs, m, order);
    }
  }

  /** Two light nodes of different light types, and a document holding both definitions. */
  const LightA := DocNode("light_a", LIGHTSHADER, Some("ND_a"))
  const LightB := DocNode("light_b", LIGHTSHADER, Some("ND_b"))
  const TwoLightDoc := Document([LightA, LightB], map["ND_a" := NodeDef("ND_a", LIGHTSHADER), "ND_b" := NodeDef("ND_b", LIGHTSHADER)])

  /** Numbering light A from an empty map gives its definition id 1. */
  lemma FirstNumbering()
    ensures DefNames([LightA]) == {"ND_a"}
    ensures Renumber(RestartAtOne, [LightA], map[]) == map["ND_a" := 1]
  {
    assert DefNames([LightA]) == {"ND_a"};
    assert NewDefs([LightA], {}) == ["ND_a"];
  }

  /** Registering light A from an empty map numbers its definition 1. */
  lemma FirstRegistration(ctx: Context, instantiate: NodeDef -> Node)
    ensures RegisterLights(RestartAtOne, map[], TwoLightDoc, [LightA], ctx, ["ND_a"], instantiate).Ok?
    ensures RegisterLights(RestartAtOne, map[], TwoLightDoc, [LightA], ctx, ["ND_a"], instantiate).value.ids == map["ND_a" := 1]
  {
    FirstNumbering();
    assert Elements(["ND_a"]) == {"ND_a"};
    assert Bindable({}, TwoLightDoc.nodeDefs, map["ND_a" := 1], ["ND_a"]);
  }

  /** The id map after registering light B as written: both definitions hold id 1. */
  const CollidingIds: IdMap := map["ND_a" := 1, "ND_b" := 1]

  /** Any enumeration of the colliding map binds two definitions under id 1. */
  lemma CollidingOrder(order: seq<string>)
    requires Distinct(order) && Elements(order) == {"ND_a", "ND_b"}
    ensures forall k :: 0 <= k < |order| ==> order[k] in TwoLightDoc.nodeDefs && order[k] in CollidingIds && CollidingIds[order[k]] == 1
    ensures !Bindable({}, TwoLightDoc.nodeDefs, CollidingIds, order)
  {
    forall k | 0 <= k < |order| ensures order[k] in {"ND_a", "ND_b"} {
      assert order[k] in Elements(order);
    }
    assert "ND_a" in Elements(order) && "ND_b" in Elements(order);
    var i :| 0 <= i < |order| && order[i] == "ND_a";
    var j :| 0 <= j < |order| && order[j] == "ND_b";
    if i < j {
      assert CollidingIds[order[i]] == CollidingIds[order[j]];
    } else {
      assert j < i && CollidingIds[order[j]] == CollidingIds[order[i]];
    }
  }

  /**
   With light A's definition holding id 1, registering light B as written
   numbers B's definition 1 as well, so binding runs into a duplicate id
   whatever the order in which the map is enumerated.
   */
  lemma SecondRegistrationCollides(ctx: Context, order: seq<string>, instantiate: NodeDef -> Node)
    requires Distinct(order) && Elements(order) == {"ND_a", "ND_b"}
    ensures RegisterLights(RestartAtOne, map["ND_a" := 1], TwoLightDoc, [LightB], ctx, order, instantiate) == Err(DuplicateBinding(1))
  {
    NumberingCollides();
    assert Renumber(RestartAtOne, [LightB], map["ND_a" := 1]) == CollidingIds;
    CollidingOrder(order);
    var bound := BindAll(UnbindLightShaders(ctx), TwoLightDoc.nodeDefs, CollidingIds, order, instantiate);
    BindAllOkIff(UnbindLightShaders(ctx), TwoLightDoc.nodeDefs, CollidingIds, order, instantiate);
    assert bound.Err? && bound.error.DuplicateBinding?;
    var k :| 0 <= k < |order| && order[k] in TwoLightDoc.nodeDefs && CollidingIds[order[k]] == bound.error.id;
    assert bound == Err(DuplicateBinding(1));
  }

  /**
   Registration as written fails on its second call: registering light A
   and then light B, in the same handler and context, ends in a duplicate
   light type id.
   */
  lemma RegistrationCollides(ctx: Context, order: seq<string>, instantiate: NodeDef -> Node)
    requires Distinct(order) && Elements(order) == {"ND_a", "ND_b"}
    ensures RegisterLights(RestartAtOne, map[], TwoLightDoc, [LightA], ctx, ["ND_a"], instantiate).Ok?
    ensures
      var first := RegisterLights(RestartAtOne, map[], TwoLightDoc, [LightA], ctx, ["ND_a"], instantiate).value;
      RegisterLights(RestartAtOne, first.ids, TwoLightDoc, [LightB], first.ctx, order, instantiate) == Err(DuplicateBinding(1))
  {
    FirstRegistration(ctx, instantiate);
    var first := RegisterLights(RestartAtOne, map[], TwoLightDoc, [LightA], ctx, ["ND_a"], instantiate).value;
    SecondRegistrationCollides(first.ctx, order, instantiate);
  }
}
