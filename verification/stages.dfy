/**
 Variable blocks and shader stages: the ordered, name-unique collections of
 shader variables a stage exposes, next to the lines of code it has
 accumulated.
 */
module Stages {
  import opened Base

  /** A shader variable held by a block: name, emitted identifier, type, optional value and provenance path. */
  datatype Variable = Variable(name: string, variable: string, vtype: TypeDesc, value: Option<Value>, path: string)

  /** A variable created by name; its emitted identifier starts out equal to the name. */
  function NewVariable(t: TypeDesc, name: string, value: Option<Value>): (v: Variable)
    ensures v.name == name && v.variable == name && v.vtype == t && v.value == value
  {
    Variable(name, name, t, value, "")
  }

  /** The block entry for an existing port, shared with the graph that owns it. */
  function PortVariable(p: Port): (v: Variable)
    ensures v.name == p.name && v.variable == p.variable && v.vtype == p.ptype
  {
    Variable(p.name, p.variable, p.ptype, p.value, p.path)
  }

  /** An ordered block of variables with a block name and an instance name. */
  datatype VariableBlock = VariableBlock(name: string, instance: string, vars: seq<Variable>)

  function EmptyBlock(name: string, instance: string): (b: VariableBlock)
    ensures b.vars == [] && b.name == name && b.instance == instance
  {
    VariableBlock(name, instance, [])
  }

  /** The names of the variables of a block. */
  function VarNames(b: VariableBlock): set<string> {
    set v | v in b.vars :: v.name
  }

  /** No two variables of the block share a name. */
  predicate UniqueNames(b: VariableBlock) {
    forall i, j :: 0 <= i < j < |b.vars| ==> b.vars[i].name != b.vars[j].name
  }

  /** Appends `v`; a block refuses a second variable with the same name. */
  function AddVariable(b: VariableBlock, v: Variable): (r: Result<VariableBlock>)
    ensures r.Ok? <==> v.name !in VarNames(b)
    ensures r.Err? ==> r.error == DuplicateVariable(b.name, v.name)
    ensures r.Ok? ==> r.value.vars == b.vars + [v] && r.value.name == b.name && r.value.instance == b.instance
    ensures r.Ok? ==> VarNames(r.value) == VarNames(b) + {v.name}
    ensures r.Ok? && UniqueNames(b) ==> UniqueNames(r.value)
  {
    if exists w :: w in b.vars && w.name == v.name then Err(DuplicateVariable(b.name, v.name))
    else
      var r := b.(vars := b.vars + [v]);
      assert forall w :: w in r.vars ==> w in b.vars || w == v;
      Ok(r)
  }

  /** The names of a sequence of variables, in order. */
  function Names(vs: seq<Variable>): (r: seq<string>)
    ensures |r| == |vs| && forall i :: 0 <= i < |vs| ==> r[i] == vs[i].name
  {
    seq(|vs|, i requires 0 <= i < |vs| => vs[i].name)
  }

  /**
   Adds the variables in order, stopping at the first whose name the block
   already holds. It succeeds exactly when the names are pairwise different
   and new to the block, and then appends them all.
   */
  function AddVariables(b: VariableBlock, vs: seq<Variable>): (r: Result<VariableBlock>)
    ensures r.Ok? <==> Distinct(Names(vs)) && forall i :: 0 <= i < |vs| ==> vs[i].name !in VarNames(b)
    ensures r.Err? ==> exists i :: 0 <= i < |vs| && r.error == DuplicateVariable(b.name, vs[i].name)
    ensures r.Ok? ==> r.value.vars == b.vars + vs && r.value.name == b.name && r.value.instance == b.instance
    ensures r.Ok? && UniqueNames(b) ==> UniqueNames(r.value)
    decreases |vs|
  {
    if vs == [] then Ok(b)
    else
      match AddVariable(b, vs[0])
      case Err(e) =>
        assert vs[0].name in VarNames(b);
        Err(e)
      case Ok(next) =>
        var r := AddVariables(next, vs[1..]);
        AddVariablesStep(b, vs, next);
        AddVariablesTail(b, vs, next, r);
        r
  }

  /** What the rest of the run appends or reports, stated for the whole run. */
  lemma AddVariablesTail(b: VariableBlock, vs: seq<Variable>, next: VariableBlock, r: Result<VariableBlock>)
    requires vs != [] && next.vars == b.vars + [vs[0]] && next.name == b.name
    requires r.Ok? ==> r.value.vars == next.vars + vs[1..]
    requires r.Err? ==> exists i :: 0 <= i < |vs[1..]| && r.error == DuplicateVariable(next.name, vs[1..][i].name)
    ensures r.Ok? ==> r.value.vars == b.vars + vs
    ensures r.Err? ==> exists i :: 0 <= i < |vs| && r.error == DuplicateVariable(b.name, vs[i].name)
  {
    assert b.vars + vs == next.vars + vs[1..];
    if r.Err? {
      var k :| 0 <= k < |vs[1..]| && r.error == DuplicateVariable(next.name, vs[1..][k].name);
      assert vs[k + 1] == vs[1..][k];
    }
  }

  /** Names are pairwise distinct exactly when the tail's are and no later name repeats the first. */
  lemma DistinctNamesCons(vs: seq<Variable>)
    requires vs != []
    ensures Distinct(Names(vs)) <==>
      Distinct(Names(vs[1..])) && forall i :: 1 <= i < |vs| ==> vs[i].name != vs[0].name
  {
    DistinctCons(Names(vs));
    assert Names(vs)[1..] == Names(vs[1..]);
  }


  /** After the first variable is added, the rest can be added exactly when the whole run could. */
  lemma AddVariablesStep(b: VariableBlock, vs: seq<Variable>, next: VariableBlock)
    requires vs != [] && AddVariable(b, vs[0]) == Ok(next)
    ensures (Distinct(Names(vs)) && forall i :: 0 <= i < |vs| ==> vs[i].name !in VarNames(b))
      <==> (Distinct(Names(vs[1..])) && forall i :: 0 <= i < |vs[1..]| ==> vs[1..][i].name !in VarNames(next))
  {
    DistinctNamesCons(vs);
    assert forall i :: 0 <= i < |vs[1..]| ==> vs[1..][i] == vs[i + 1];
  }

  /** Adding a concatenation is adding the first part and then, unless it was refused, the second. */
  lemma {:induction false} AddVariablesConcat(b: VariableBlock, xs: seq<Variable>, ys: seq<Variable>)
    ensures AddVariables(b, xs + ys)
      == match AddVariables(b, xs) { case Err(e) => Err(e) case Ok(mid) => AddVariables(mid, ys) }
    decreases |xs|
  {
    if xs == [] {
      assert xs + ys == ys;
    } else {
      assert (xs + ys)[0] == xs[0];
      assert (xs + ys)[1..] == xs[1..] + ys;
      match AddVariable(b, xs[0])
      case Err(e) =>
      case Ok(next) =>
        AddVariablesConcat(next, xs[1..], ys);
    }
  }

  /** A stage: its name, the code emitted so far, and its variable blocks by role. */
  datatype Stage = Stage(
    name: string,
    code: seq<Line>,
    constants: VariableBlock,
    uniforms: seq<VariableBlock>,
    inputs: seq<VariableBlock>,
    outputs: seq<VariableBlock>)

  function EmptyStage(name: string): (s: Stage)
    ensures s.name == name && s.code == [] && s.uniforms == [] && s.inputs == [] && s.outputs == []
  {
    Stage(name, [], EmptyBlock("Constants", "cn"), [], [], [])
  }
}
