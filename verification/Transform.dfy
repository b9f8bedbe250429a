/** The rewritten functions: which registers become locals, and the stores and loads
    put around each statement. */
module Transform {
  import opened Registers
  import opened Programs
  import opened Liveness
  import opened Analysis

  /** One statement of the output: the locals stored to the context before it, and those
      loaded from it afterwards. A dropped helper call keeps only its store of r12. */
  datatype Block = Block(node: Node, dropped: bool, before: set<Reg>, after: set<Reg>)

  /** locals are whole names; the loaded ones start from the context, the others from zero. */
  datatype Target = Target(locals: set<Reg>, loaded: set<Reg>, blocks: seq<Block>)

  /** Registers the function names, and nonvolatile ones it passes from its caller to a callee. */
  function LocalUnits(p: Program, s: Solution, f: Name): set<Reg>
    requires f in p.functions
  {
    p.localised * (p.functions[f].referenced + set r | r in Lookup(s.livein, f) && !Volatile(r))
  }

  function Locals(p: Program, s: Solution, f: Name): set<Reg>
    requires f in p.functions
  {
    Widen(LocalUnits(p, s, f))
  }

  function Stores(p: Program, s: Solution, f: Name, n: Node): set<Reg>
    requires f in p.functions
  {
    match n.kind
    case CALL => if Dropped(p, n.callee) then {} else CalleeLivein(p, s.livein, n.callee) + n.site
    case ICALL => s.indirectLivein + n.site
    case EXIT => if n.leaves then Lookup(s.ret, f) else {}
    case PLAIN => n.hostReads
    case BRANCH => {}
  }

  function Loads(p: Program, s: Solution, f: Name, i: nat): set<Reg>
    requires f in p.functions && i < |p.functions[f].nodes| && f in s.livebefore
  {
    var n := p.functions[f].nodes[i];
    match n.kind
    case CALL => if Dropped(p, n.callee) then {} else LiveAfter(p, s, f, i) * CalleeRet(p, s.ret, n.callee)
    case ICALL => LiveAfter(p, s, f, i) * s.indirectRet
    case PLAIN => n.hostWrites
    case _ => {}
  }

  function Emit(p: Program, s: Solution, f: Name, i: nat): Block
    requires f in p.functions && i < |p.functions[f].nodes| && f in s.livebefore
  {
    var n := p.functions[f].nodes[i];
    var units := LocalUnits(p, s, f);
    Block(n, n.kind == CALL && Dropped(p, n.callee),
      Widen(Stores(p, s, f, n) * units), Widen(Loads(p, s, f, i) * units))
  }

  /** The output of transform_function is this function's statements, each with its stores and loads. */
  ghost predicate IsTransformed(p: Program, s: Solution, f: Name, t: Target) {
    && f in p.functions && f in s.livebefore
    && t.locals == Locals(p, s, f)
    && t.loaded == Widen(Lookup(s.livein, f)) * t.locals
    && |t.blocks| == |p.functions[f].nodes|
    && forall i | 0 <= i < |t.blocks| :: t.blocks[i] == Emit(p, s, f, i)
  }

  /** transform_function. */
  method TransformFunction(p: Program, s: Solution, f: Name) returns (t: Target)
    requires f in p.functions && f in s.livebefore
    ensures IsTransformed(p, s, f, t)
  {
    hide *;
    var locals := Locals(p, s, f);
    var loaded := Widen(Lookup(s.livein, f)) * locals;
    var out: seq<Block> := [];
    for i := 0 to |p.functions[f].nodes|
      invariant |out| == i
      invariant forall j | 0 <= j < i :: out[j] == Emit(p, s, f, j)
    {
      out := out + [Emit(p, s, f, i)];
    }
    t := Target(locals, loaded, out);
    TransformedIs(p, s, f, t);
  }

  lemma TransformedIs(p: Program, s: Solution, f: Name, t: Target)
    requires f in p.functions && f in s.livebefore
    requires t.locals == Locals(p, s, f) && t.loaded == Widen(Lookup(s.livein, f)) * t.locals
    requires |t.blocks| == |p.functions[f].nodes|
    requires forall i | 0 <= i < |t.blocks| :: t.blocks[i] == Emit(p, s, f, i)
    ensures IsTransformed(p, s, f, t)
  {
  }

  ghost predicate IsTransformedProgram(p: Program, s: Solution, out: map<Name, Target>) {
    && out.Keys == p.functions.Keys
    && forall f | f in p.functions :: IsTransformed(p, s, f, out[f])
  }

  /** Every function of the program, one after the other. */
  method TransformProgram(p: Program, s: Solution, order: seq<Name>) returns (out: map<Name, Target>)
    requires Names(order) == p.functions.Keys == s.livebefore.Keys
    ensures IsTransformedProgram(p, s, out)
  {
    hide *;
    out := map[];
    for k := 0 to |order|
      invariant out.Keys <= p.functions.Keys
      invariant forall j | 0 <= j < k :: order[j] in out
      invariant forall f | f in out :: IsTransformed(p, s, f, out[f])
    {
      InNames(order, k);
      var t := TransformFunction(p, s, order[k]);
      out := out[order[k] := t];
    }
    EveryTransformed(p, s, order, out);
  }

  lemma EveryTransformed(p: Program, s: Solution, order: seq<Name>, out: map<Name, Target>)
    requires Names(order) == p.functions.Keys
    requires out.Keys <= p.functions.Keys && forall j | 0 <= j < |order| :: order[j] in out
    requires forall f | f in out :: IsTransformed(p, s, f, out[f])
    ensures IsTransformedProgram(p, s, out)
  {
    hide IsTransformed;
  }
}
