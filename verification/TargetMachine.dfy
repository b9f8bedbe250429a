/** Runs of the rewritten code: each function has its own locals, and the context is
    only what its stores put there. */
module TargetMachine {
  import opened Registers
  import opened Programs
  import opened Liveness
  import opened Machine
  import opened Transform

  type Code = map<Name, Target>

  /** What a statement sees: the local when the function has one, else the context. */
  function View(l: File, c: File, locals: set<Reg>): File {
    Override(c, l, locals)
  }

  datatype TargetStep =
    | TEnds(outcome: Outcome)
    | TGoes(next: nat, locals: File, context: File, world: World)
    | TCalls(callee: Name, shown: File, context: File, world: World, next: nat, loads: set<Reg>)

  /** A statement between its stores and its loads. An inline helper handed the context
      reads and writes some registers there even where they have locals. */
  function PlainStep(m: Meaning, f: Name, i: nat, t: Target, b: Block, l: File, c: File, w: World): TargetStep
    requires |b.node.succ| > 0
  {
    var n := b.node;
    var mine := t.locals - (n.hostReads + n.hostWrites);
    var c1 := Override(c, l, b.before);
    var e := m.plain(f, i, Restrict(View(l, c1, mine), n.uses), w);
    var l1 := Override(l, e.registers, n.writes * mine);
    var c2 := Override(c1, e.registers, n.writes - mine);
    TGoes(n.succ[0], Override(l1, c2, b.after), c2, e.world)
  }

  function TargetStepAt(m: Meaning, f: Name, i: nat, t: Target, l: File, c: File, w: World): TargetStep
    requires i < |t.blocks|
    requires t.blocks[i].node.kind != EXIT ==> |t.blocks[i].node.succ| > 0
  {
    var b := t.blocks[i];
    var n := b.node;
    var c1 := Override(c, l, b.before);
    match n.kind
    case EXIT => TEnds(if n.leaves then Returned(c1, w, []) else Stopped(w, []))
    case BRANCH => TGoes(n.succ[m.choose(f, i, Restrict(View(l, c, t.locals), n.uses), w) % |n.succ|], l, c, w)
    case PLAIN => PlainStep(m, f, i, t, b, l, c, w)
    case _ =>
      if b.dropped then
        TGoes(n.succ[0], l, c, m.helper(f, i, Restrict(View(l, c, t.locals), HelperReads(n)), w))
      else
        var shown := Restrict(c1, n.site);
        TCalls(CalleeOf(m, f, i, n, Restrict(View(l, c, t.locals), n.uses), w), shown, c1,
          m.hook(f, i, shown, w), n.succ[0], b.after)
  }

  predicate WellFormedTarget(t: Target) {
    t.blocks != [] &&
    forall i | 0 <= i < |t.blocks| ::
      var n := t.blocks[i].node;
      && (n.kind != EXIT ==> |n.succ| > 0)
      && forall next | next in n.succ :: next < |t.blocks|
  }

  predicate WellFormedCode(code: Code) {
    forall f | f in code :: WellFormedTarget(code[f])
  }

  lemma BlockAt(code: Code, f: Name, i: nat)
    requires WellFormedCode(code) && f in code && i < |code[f].blocks|
    ensures var n := code[f].blocks[i].node;
      (n.kind != EXIT ==> |n.succ| > 0) && forall next | next in n.succ :: next < |code[f].blocks|
  {
    assert WellFormedTarget(code[f]);
  }

  lemma TargetStepNext(m: Meaning, f: Name, i: nat, t: Target, l: File, c: File, w: World)
    requires i < |t.blocks|
    requires var n := t.blocks[i].node;
      (n.kind != EXIT ==> |n.succ| > 0) && forall next | next in n.succ :: next < |t.blocks|
    ensures match TargetStepAt(m, f, i, t, l, c, w)
      case TEnds(_) => true
      case TGoes(next, _, _, _) => next < |t.blocks|
      case TCalls(_, _, _, _, next, _) => next < |t.blocks|
  {
    var n := t.blocks[i].node;
    if n.kind == BRANCH {
      assert n.succ[m.choose(f, i, Restrict(View(l, c, t.locals), n.uses), w) % |n.succ|] in n.succ;
    } else if n.kind != EXIT {
      assert n.succ[0] in n.succ;
    }
  }

  function TargetHere(watch: Watch, f: Name, i: nat, v: File, w: World): seq<Event> {
    [Visit(f, i, Restrict(v, Watched(watch, f, i)), w)]
  }

  /** A run of the rewritten f from its block i, with its locals and the context. */
  function TargetRun(p: Program, code: Code, m: Meaning, watch: Watch, f: Name, i: nat, l: File, c: File, w: World,
      fuel: nat): Outcome
    requires WellFormedCode(code) && f in code && i < |code[f].blocks|
    decreases fuel
  {
    if fuel == 0 then Exhausted([])
    else
      BlockAt(code, f, i);
      TargetStepNext(m, f, i, code[f], l, c, w);
      var here := TargetHere(watch, f, i, View(l, c, code[f].locals), w);
      match TargetStepAt(m, f, i, code[f], l, c, w)
      case TEnds(o) => Prepend(here, o)
      case TGoes(next, l', c', w') => Prepend(here, TargetRun(p, code, m, watch, f, next, l', c', w', fuel - 1))
      case TCalls(g, shown, c1, w', next, loads) =>
        var o := TargetInvoke(p, code, m, watch, g, c1, w', fuel - 1);
        var events := here + [Enter(g, shown)];
        if o.Returned? then
          Prepend(events + o.trace, TargetRun(p, code, m, watch, f, next, Override(l, o.file, loads), o.file, o.world,
            fuel - 1))
        else Prepend(events, o)
  }

  /** A call of rewritten code: fresh locals, loaded or zero; the epilogue still restores the
      saved registers that are never locals. */
  function TargetInvoke(p: Program, code: Code, m: Meaning, watch: Watch, g: Name, c: File, w: World,
      fuel: nat): Outcome
    requires WellFormedCode(code)
    decreases fuel
  {
    if g in code then
      if fuel == 0 then Exhausted([])
      else
        assert WellFormedTarget(code[g]);
        var o := TargetRun(p, code, m, watch, g, 0, Restrict(c, code[g].loaded), c, w, fuel - 1);
        if o.Returned? then o.(file := Override(o.file, c, Restored(p, g) - p.localised)) else o
    else HostCall(p, m, g, c, w)
  }

  lemma TargetRunUnfolds(p: Program, code: Code, m: Meaning, watch: Watch, f: Name, i: nat, l: File, c: File, w: World,
      fuel: nat)
    requires WellFormedCode(code) && f in code && i < |code[f].blocks|
    requires code[f].blocks[i].node.kind != EXIT ==> |code[f].blocks[i].node.succ| > 0
    requires match TargetStepAt(m, f, i, code[f], l, c, w)
      case TEnds(_) => true
      case TGoes(next, _, _, _) => next < |code[f].blocks|
      case TCalls(_, _, _, _, next, _) => next < |code[f].blocks|
    ensures var o := TargetRun(p, code, m, watch, f, i, l, c, w, fuel);
      var here := TargetHere(watch, f, i, View(l, c, code[f].locals), w);
      if fuel == 0 then o == Exhausted([])
      else match TargetStepAt(m, f, i, code[f], l, c, w)
        case TEnds(e) => o == Prepend(here, e)
        case TGoes(next, l', c', w') =>
          o == Prepend(here, TargetRun(p, code, m, watch, f, next, l', c', w', fuel - 1))
        case TCalls(g, shown, c1, w', next, loads) =>
          var back := TargetInvoke(p, code, m, watch, g, c1, w', fuel - 1);
          var events := here + [Enter(g, shown)];
          if back.Returned? then
            o == Prepend(events + back.trace,
              TargetRun(p, code, m, watch, f, next, Override(l, back.file, loads), back.file, back.world, fuel - 1))
          else o == Prepend(events, back)
  {
    hide TargetStepAt, WellFormedCode, TargetInvoke, Prepend, TargetHere, View;
  }

  lemma TargetInvokeUnfolds(p: Program, code: Code, m: Meaning, watch: Watch, g: Name, c: File, w: World, fuel: nat)
    requires WellFormedCode(code)
    ensures var o := TargetInvoke(p, code, m, watch, g, c, w, fuel);
      if g in code then
        if fuel == 0 then o == Exhausted([])
        else
          |code[g].blocks| > 0 &&
          var body := TargetRun(p, code, m, watch, g, 0, Restrict(c, code[g].loaded), c, w, fuel - 1);
          o == if body.Returned? then body.(file := Override(body.file, c, Restored(p, g) - p.localised)) else body
      else o == HostCall(p, m, g, c, w)
  {
    hide TargetRun, Override, Restored;
    if g in code {
      assert WellFormedTarget(code[g]);
    }
  }
}
