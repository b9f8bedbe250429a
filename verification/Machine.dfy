/** Runs of the generated code. Registers live in a file, everything else a statement
    can see or change (memory, LR, the clock) is the world, and what a statement does
    to them is any function of the registers it reads and of the world. */
module Machine {
  import opened Registers
  import opened Programs
  import opened CallGraph
  import opened Liveness

  type Value = nat

  type File = map<Reg, Value>

  /** A register nothing wrote is zero, as a local that starts from `{}`. */
  function At(c: File, r: Reg): Value {
    if r in c then c[r] else 0
  }

  function Restrict(c: File, s: set<Reg>): File {
    map r | r in s :: At(c, r)
  }

  /** c with the registers of s taken from d. */
  function Override(c: File, d: File, s: set<Reg>): (e: File)
    ensures forall r :: At(e, r) == if r in s then At(d, r) else At(c, r)
  {
    map r | r in c.Keys + s :: if r in s then At(d, r) else At(c, r)
  }

  ghost predicate Agree(a: File, b: File, s: set<Reg>) {
    forall r | r in s :: At(a, r) == At(b, r)
  }

  ghost predicate AgreeOutside(a: File, b: File, s: set<Reg>) {
    forall r | r !in s :: At(a, r) == At(b, r)
  }

  lemma AgreeRestrict(a: File, b: File, s: set<Reg>)
    requires Agree(a, b, s)
    ensures Restrict(a, s) == Restrict(b, s)
  {
  }

  datatype World = World(memory: map<nat, nat>, lr: nat, time: nat)

  datatype Effect = Effect(registers: File, world: World)

  datatype HostEffect = HostReturns(registers: File, world: World) | HostStops(world: World)

  /** The meaning of the statements of one program, on one host. */
  datatype Meaning = Meaning(
    plain: (Name, nat, File, World) -> Effect,        // a statement, on the registers it reads
    choose: (Name, nat, File, World) -> nat,          // which edge a branch takes
    helper: (Name, nat, File, World) -> World,        // a save or restore helper
    target: (Name, nat, File, World) -> Name,         // where an indirect call goes
    hook: (Name, nat, File, World) -> World,          // host code reading its caller's registers
    host: (Name, File, World) -> HostEffect)          // an import

  datatype Event =
    | Visit(f: Name, node: nat, seen: File, world: World)
    | Enter(callee: Name, shown: File)

  datatype Outcome =
    | Returned(file: File, world: World, trace: seq<Event>)
    | Stopped(world: World, trace: seq<Event>)
    | Exhausted(trace: seq<Event>)

  function Prepend(events: seq<Event>, o: Outcome): Outcome {
    match o
    case Returned(file, world, trace) => Returned(file, world, events + trace)
    case Stopped(world, trace) => Stopped(world, events + trace)
    case Exhausted(trace) => Exhausted(events + trace)
  }

  /** What a run shows besides the registers it returns. */
  ghost predicate SameShow(a: Outcome, b: Outcome) {
    && a.trace == b.trace
    && (a.Returned? <==> b.Returned?)
    && (a.Stopped? <==> b.Stopped?)
    && (a.Returned? ==> a.world == b.world)
    && (a.Stopped? ==> a.world == b.world)
  }

  /** Registers a traced run records at each node. */
  type Watch = map<Name, Masks>

  function Watched(watch: Watch, f: Name, i: nat): set<Reg> {
    if f in watch && i < |watch[f]| then watch[f][i] else {}
  }

  /** Host code keeps the convention: it changes no nonvolatile register, unless it stands
      for a save or restore helper. */
  function HostMayWrite(g: Name, effect: File): set<Reg> {
    set r | r in effect && (!Saveable(r) || IsSaveRestore(g)) && r !in KEPT_FIELDS
  }

  /** Host code sees the registers that are never localised, and those it is known to read. */
  function HostSees(p: Program, g: Name): set<Reg> {
    (p.universe - p.localised) + if g in p.host then p.host[g] else {}
  }

  function HostCall(p: Program, m: Meaning, g: Name, c: File, w: World): Outcome {
    if g in NORETURN_IMPORTS then Stopped(w, [])
    else
      match m.host(g, Restrict(c, HostSees(p, g)), w)
      case HostReturns(out, w') => Returned(Override(c, out, HostMayWrite(g, out)), w', [])
      case HostStops(w') => Stopped(w', [])
  }

  /** What the epilogue puts back: the saved registers, and the fields every call preserves. */
  function Restored(p: Program, g: Name): set<Reg> {
    KEPT_FIELDS + if g in p.functions then p.functions[g].saved else {}
  }

  function HelperReads(n: Node): set<Reg> {
    if n.callee.SaveGprLr? then {R(12)} else {}
  }

  function CalleeOf(m: Meaning, f: Name, i: nat, n: Node, operands: File, w: World): Name {
    if n.kind == CALL then n.callee else m.target(f, i, operands, w)
  }

  predicate IsDropped(p: Program, n: Node) {
    n.kind == CALL && Dropped(p, n.callee)
  }

  /** What one statement does: ends the run, goes on, or calls and then goes on. */
  datatype Step =
    | Ends(outcome: Outcome)
    | Goes(next: nat, file: File, world: World)
    | Calls(callee: Name, shown: File, world: World, next: nat)

  function StepAt(p: Program, m: Meaning, f: Name, i: nat, s: File, w: World): Step
    requires f in p.functions && i < |p.functions[f].nodes|
    requires WellFormedNode(p.functions[f].nodes, p.functions[f].nodes[i])
  {
    var n := p.functions[f].nodes[i];
    match n.kind
    case EXIT => Ends(if n.leaves then Returned(s, w, []) else Stopped(w, []))
    case BRANCH => Goes(n.succ[m.choose(f, i, Restrict(s, n.uses), w) % |n.succ|], s, w)
    case PLAIN =>
      var e := m.plain(f, i, Restrict(s, n.uses), w);
      Goes(n.succ[0], Override(s, e.registers, n.writes), e.world)
    case _ =>
      if IsDropped(p, n) then
        Goes(n.succ[0], s, m.helper(f, i, Restrict(s, HelperReads(n)), w))
      else
        var shown := Restrict(s, n.site);
        Calls(CalleeOf(m, f, i, n, Restrict(s, n.uses), w), shown, m.hook(f, i, shown, w), n.succ[0])
  }

  lemma NodeAt(p: Program, f: Name, i: nat)
    requires WellFormed(p) && f in p.functions && i < |p.functions[f].nodes|
    ensures WellFormedNode(p.functions[f].nodes, p.functions[f].nodes[i])
  {
    assert WellFormedNodes(p.functions[f].nodes);
  }

  lemma HasEntry(p: Program, f: Name)
    requires WellFormed(p) && f in p.functions
    ensures |p.functions[f].nodes| > 0
  {
    assert WellFormedNodes(p.functions[f].nodes);
  }

  lemma StepNext(p: Program, m: Meaning, f: Name, i: nat, s: File, w: World)
    requires f in p.functions && i < |p.functions[f].nodes|
    requires WellFormedNode(p.functions[f].nodes, p.functions[f].nodes[i])
    ensures var step := StepAt(p, m, f, i, s, w);
      step.Goes? || step.Calls? ==>
        step.next in p.functions[f].nodes[i].succ && step.next < |p.functions[f].nodes|
          && p.functions[f].nodes[i].kind != EXIT
  {
    var n := p.functions[f].nodes[i];
    if n.kind == BRANCH {
      assert n.succ[m.choose(f, i, Restrict(s, n.uses), w) % |n.succ|] in n.succ;
    } else if n.kind != EXIT {
      assert n.succ[0] in n.succ;
    }
  }

  /** A run of f from node i, every register in one file. */
  function Run(p: Program, m: Meaning, watch: Watch, f: Name, i: nat, s: File, w: World, fuel: nat): Outcome
    requires WellFormed(p) && f in p.functions && i < |p.functions[f].nodes|
    decreases fuel
  {
    if fuel == 0 then Exhausted([])
    else
      NodeAt(p, f, i);
      StepNext(p, m, f, i, s, w);
      var here := [Visit(f, i, Restrict(s, Watched(watch, f, i)), w)];
      match StepAt(p, m, f, i, s, w)
      case Ends(o) => Prepend(here, o)
      case Goes(next, s', w') => Prepend(here, Run(p, m, watch, f, next, s', w', fuel - 1))
      case Calls(g, shown, w', next) =>
        var o := Invoke(p, m, watch, g, s, w', fuel - 1);
        var events := here + [Enter(g, shown)];
        if o.Returned? then
          Prepend(events + o.trace, Run(p, m, watch, f, next, o.file, o.world, fuel - 1))
        else Prepend(events, o)
  }

  /** A call: the body's run, then the epilogue's restores; or host code. */
  function Invoke(p: Program, m: Meaning, watch: Watch, g: Name, s: File, w: World, fuel: nat): Outcome
    requires WellFormed(p)
    decreases fuel
  {
    if g in p.functions then
      if fuel == 0 then Exhausted([])
      else
        HasEntry(p, g);
        var o := Run(p, m, watch, g, 0, s, w, fuel - 1);
        if o.Returned? then o.(file := Override(o.file, s, Restored(p, g))) else o
    else HostCall(p, m, g, s, w)
  }

  function Here(watch: Watch, f: Name, i: nat, s: File, w: World): seq<Event> {
    [Visit(f, i, Restrict(s, Watched(watch, f, i)), w)]
  }

  lemma RunUnfolds(p: Program, m: Meaning, watch: Watch, f: Name, i: nat, c: File, w: World, fuel: nat)
    requires WellFormed(p) && f in p.functions && i < |p.functions[f].nodes|
    requires WellFormedNode(p.functions[f].nodes, p.functions[f].nodes[i])
    requires match StepAt(p, m, f, i, c, w)
      case Ends(_) => true
      case Goes(next, _, _) => next < |p.functions[f].nodes|
      case Calls(_, _, _, next) => next < |p.functions[f].nodes|
    ensures var o := Run(p, m, watch, f, i, c, w, fuel);
      if fuel == 0 then o == Exhausted([])
      else match StepAt(p, m, f, i, c, w)
        case Ends(e) => o == Prepend(Here(watch, f, i, c, w), e)
        case Goes(next, c', w') =>
          o == Prepend(Here(watch, f, i, c, w), Run(p, m, watch, f, next, c', w', fuel - 1))
        case Calls(g, shown, w', next) =>
          var back := Invoke(p, m, watch, g, c, w', fuel - 1);
          var events := Here(watch, f, i, c, w) + [Enter(g, shown)];
          if back.Returned? then
            o == Prepend(events + back.trace, Run(p, m, watch, f, next, back.file, back.world, fuel - 1))
          else o == Prepend(events, back)
  {
    hide StepAt, WellFormed, WellFormedNode, Invoke, Prepend, Restrict, Watched;
  }

  lemma InvokeUnfolds(p: Program, m: Meaning, watch: Watch, g: Name, c: File, w: World, fuel: nat)
    requires WellFormed(p)
    ensures var o := Invoke(p, m, watch, g, c, w, fuel);
      if g in p.functions then
        if fuel == 0 then o == Exhausted([])
        else
          |p.functions[g].nodes| > 0 &&
          var body := Run(p, m, watch, g, 0, c, w, fuel - 1);
          o == if body.Returned? then body.(file := Override(body.file, c, Restored(p, g))) else body
      else o == HostCall(p, m, g, c, w)
  {
    hide WellFormed, Run, Override, Restored;
    if g in p.functions {
      HasEntry(p, g);
    }
  }
}
