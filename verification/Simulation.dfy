/** The rewritten program means what the source means. */
module Simulation {
  import opened Registers
  import opened Programs
  import opened Liveness
  import opened CallGraph
  import opened Analysis
  import opened Machine
  import opened CallFacts
  import opened Noninterference
  import opened Transform
  import opened TargetMachine

  // ------------------------------------------------------------ the condition

  /** f has no local for r, or one it never writes, and stores to the context only where it
      hands r over. */
  ghost predicate Quiet(p: Program, s: Solution, f: Name, r: Reg) {
    f in p.functions && f in s.livebefore && (r !in Locals(p, s, f) ||
      forall i | 0 <= i < |p.functions[f].nodes| :: QuietAt(p, s, f, i, r))
  }

  ghost predicate QuietAt(p: Program, s: Solution, f: Name, i: nat, r: Reg)
    requires f in p.functions && f in s.livebefore && i < |p.functions[f].nodes|
  {
    var n := p.functions[f].nodes[i];
    !(n.kind == PLAIN && r in n.writes) && (r in Emit(p, s, f, i).before ==> r in Stores(p, s, f, n))
  }

  /** Every function calls from the set may enter is quiet about r, whatever indirect calls reach. */
  ghost predicate AllQuiet(p: Program, s: Solution, reach: set<Name>, r: Reg) {
    && RunsWithin(p, s, reach)
    && (forall f | f in reach && f in p.functions :: Quiet(p, s, f, r))
    && forall f, n | f in reach && f in p.functions && n in p.functions[f].nodes && n.kind == ICALL ::
      p.functions.Keys <= reach
  }

  /** A volatile register a call of g changes, if at all, in the context: the context stays as
      right about it as it was. */
  ghost predicate Carried(p: Program, s: Solution, g: Name, r: Reg) {
    Volatile(r) && r in p.localised && (g in p.functions ==> exists reach :: g in reach && AllQuiet(p, s, reach, r))
  }

  ghost predicate CarriedBy(p: Program, s: Solution, n: Node, r: Reg) {
    if n.kind == CALL then Carried(p, s, n.callee, r)
    else Volatile(r) && r in p.localised && AllQuiet(p, s, p.functions.Keys, r)
  }

  ghost predicate UntouchedBy(p: Program, s: Solution, n: Node, r: Reg) {
    n.kind == CALL && Untouched(p, s, n.callee, r)
  }

  /** The context is right about r after the call at node i: the callee returns r there, or
      carries it, and the caller stores its own local first. */
  ghost predicate InContext(p: Program, s: Solution, f: Name, i: nat, r: Reg)
    requires f in p.functions && f in s.livebefore && i < |p.functions[f].nodes|
  {
    var n := p.functions[f].nodes[i];
    || r in Kill(p, s.ret, s.indirectRet, n)
    || (CarriedBy(p, s, n, r) && (r in LocalUnits(p, s, f) ==> r in Emit(p, s, f, i).before))
  }

  /** The local is right about r after the call: the convention keeps r, or nothing the call
      runs writes it, and the context is right too where the local only covers r. */
  ghost predicate InLocal(p: Program, s: Solution, f: Name, i: nat, r: Reg)
    requires f in p.functions && f in s.livebefore && i < |p.functions[f].nodes|
  {
    if Volatile(r) then
      && r in LiveAt(s, f, i) && UntouchedBy(p, s, p.functions[f].nodes[i], r)
      && (r in LocalUnits(p, s, f) || InContext(p, s, f, i, r))
    else r in LocalUnits(p, s, f)
  }

  /** A register live after a call comes back where the code after it looks: in its local
      when there is one the call does not load, else in the context. */
  ghost predicate ComesBackAt(p: Program, s: Solution, f: Name, i: nat, r: Reg) {
    f in p.functions && f in s.livebefore && i < |p.functions[f].nodes| &&
    if r in Locals(p, s, f) && r !in Emit(p, s, f, i).after then InLocal(p, s, f, i, r) else InContext(p, s, f, i, r)
  }

  /** Every register live after a call that may come back comes back. */
  ghost predicate ComesBack(p: Program, s: Solution, f: Name, i: nat)
    requires f in p.functions && i < |p.functions[f].nodes| && f in s.livebefore
  {
    var n := p.functions[f].nodes[i];
    (n.kind == CALL && !IsDropped(p, n) && n.callee !in s.noreturn) || n.kind == ICALL ==>
      forall r | r in LiveAfter(p, s, f, i) && r in p.localised :: ComesBackAt(p, s, f, i, r)
  }

  /** The one condition of the simulation. */
  ghost predicate AllComeBack(p: Program, s: Solution) {
    forall f, i | f in p.functions && f in s.livebefore && 0 <= i < |p.functions[f].nodes| :: ComesBack(p, s, f, i)
  }

  // ------------------------------------------------------------ the relation

  /** A condition bit that has a local because the function names another bit of its field. */
  ghost predicate Covered(p: Program, s: Solution, f: Name, r: Reg) {
    f in p.functions && r in Locals(p, s, f) && r !in LocalUnits(p, s, f)
  }

  /** The target sees the source's value of every live register, and the context holds
      every register that is never a local and every live bit that is only covered. */
  ghost predicate Matches(p: Program, s: Solution, f: Name, i: nat, locals: set<Reg>, a: File, l: File, c: File) {
    && Agree(View(l, c, locals), a, LiveAt(s, f, i))
    && AgreeOutside(c, a, p.localised)
    && CoveredMatch(p, s, f, i, a, c)
  }

  ghost predicate CoveredMatch(p: Program, s: Solution, f: Name, i: nat, a: File, c: File) {
    forall r | r in LiveAt(s, f, i) && Covered(p, s, f, r) :: At(c, r) == At(a, r)
  }

  lemma LocalsAre(p: Program, s: Solution, f: Name)
    requires WellFormed(p) && f in p.functions
    ensures LocalUnits(p, s, f) <= Locals(p, s, f) <= p.localised
  {
    WidenMonotone(LocalUnits(p, s, f), p.localised);
  }

  lemma EmitAt(p: Program, s: Solution, f: Name, t: Target, i: nat)
    requires WellFormed(p) && IsTransformed(p, s, f, t) && f in p.functions && f in s.livebefore
      && i < |p.functions[f].nodes|
    ensures |t.blocks| == |p.functions[f].nodes| && t.locals == Locals(p, s, f)
    ensures t.blocks[i] == Emit(p, s, f, i)
    ensures t.blocks[i].before <= t.locals && t.blocks[i].after <= t.locals
    ensures Stores(p, s, f, p.functions[f].nodes[i]) * LocalUnits(p, s, f) <= t.blocks[i].before
    ensures Loads(p, s, f, i) * LocalUnits(p, s, f) <= t.blocks[i].after
    ensures t.blocks[i].node == p.functions[f].nodes[i] && t.blocks[i].dropped == IsDropped(p, p.functions[f].nodes[i])
  {
    var units := LocalUnits(p, s, f);
    WidenMonotone(Stores(p, s, f, p.functions[f].nodes[i]) * units, units);
    WidenMonotone(Loads(p, s, f, i) * units, units);
  }

  /** The stores before a statement give the context the source's value of every live
      register they are meant to hand over. */
  lemma StoresHandOver(p: Program, s: Solution, f: Name, i: nat, t: Target, a: File, l: File, c: File, handed: set<Reg>)
    requires WellFormed(p) && IsTransformed(p, s, f, t) && f in p.functions && f in s.livebefore
      && i < |p.functions[f].nodes|
    requires Matches(p, s, f, i, t.locals, a, l, c)
    requires handed <= LiveAt(s, f, i) && handed <= Stores(p, s, f, p.functions[f].nodes[i])
    ensures Agree(Override(c, l, t.blocks[i].before), a, handed)
    ensures AgreeOutside(Override(c, l, t.blocks[i].before), a, p.localised)
  {
    hide WellFormed, IsTransformed, Stores, LocalUnits, Locals, LiveAt, Emit;
    EmitAt(p, s, f, t, i);
    LocalsAre(p, s, f);
    forall r | r in handed ensures At(Override(c, l, t.blocks[i].before), r) == At(a, r) {
      assert r in LiveAt(s, f, i);
      assert At(View(l, c, t.locals), r) == At(a, r);
      if r in t.locals && r !in t.blocks[i].before {
        assert r !in Stores(p, s, f, p.functions[f].nodes[i]) * LocalUnits(p, s, f);
        assert Covered(p, s, f, r);
      }
    }
  }

  // ------------------------------------------------------------ one statement

  /** What a statement sees in the target is what it sees in the source. */
  lemma OperandsMatch(p: Program, s: Solution, f: Name, i: nat, t: Target, a: File, l: File, c: File)
    requires WellFormed(p) && Solved(p, s) && IsTransformed(p, s, f, t) && f in p.functions && f in s.livebefore
      && i < |p.functions[f].nodes|
    requires Matches(p, s, f, i, t.locals, a, l, c)
    ensures var n := p.functions[f].nodes[i];
      var v := View(l, c, t.locals);
      && (n.kind in {PLAIN, BRANCH, ICALL} ==> Restrict(v, n.uses) == Restrict(a, n.uses))
      && (IsDropped(p, n) ==> Restrict(v, HelperReads(n)) == Restrict(a, HelperReads(n)))
      && (n.kind == EXIT ==> Lookup(s.ret, f) <= LiveAt(s, f, i))
      && (n.kind == PLAIN ==> n.uses <= LiveAt(s, f, i))
      && (n.kind in {CALL, ICALL} ==> n.site <= LiveAt(s, f, i))
  {
    hide *;
    MatchesView(p, s, f, i, t.locals, a, l, c);
    var n := p.functions[f].nodes[i];
    var v := View(l, c, t.locals);
    OperandsLive(p, s, f, i);
    if n.kind in {PLAIN, BRANCH, ICALL} {
      AgreeLess(v, a, LiveAt(s, f, i), n.uses);
      AgreeRestrict(v, a, n.uses);
    }
    if IsDropped(p, n) {
      AgreeLess(v, a, LiveAt(s, f, i), HelperReads(n));
      AgreeRestrict(v, a, HelperReads(n));
    }
  }

  lemma MatchesView(p: Program, s: Solution, f: Name, i: nat, locals: set<Reg>, a: File, l: File, c: File)
    requires Matches(p, s, f, i, locals, a, l, c)
    ensures Agree(View(l, c, locals), a, LiveAt(s, f, i)) && AgreeOutside(c, a, p.localised)
      && CoveredMatch(p, s, f, i, a, c)
  {
    hide Covered;
  }

  /** What a statement looks at, its call included, is live before it. */
  lemma OperandsLive(p: Program, s: Solution, f: Name, i: nat)
    requires Solved(p, s) && f in p.functions && i < |p.functions[f].nodes|
    ensures var n := p.functions[f].nodes[i];
      && (n.kind in {PLAIN, BRANCH, ICALL} ==> n.uses <= LiveAt(s, f, i))
      && (IsDropped(p, n) ==> HelperReads(n) <= LiveAt(s, f, i))
      && (n.kind == EXIT ==> Lookup(s.ret, f) <= LiveAt(s, f, i))
      && (n.kind in {CALL, ICALL} ==> n.site <= LiveAt(s, f, i))
  {
    hide Solved, LiveAt;
    LiveFacts(p, s, f, i);
  }

  /** An inline helper loads back only what it wrote to the context. */
  lemma PlainLoads(p: Program, s: Solution, f: Name, i: nat, t: Target)
    requires WellFormed(p) && IsTransformed(p, s, f, t) && f in p.functions && f in s.livebefore
      && i < |p.functions[f].nodes|
    requires WellFormedNode(p.functions[f].nodes, p.functions[f].nodes[i]) && p.functions[f].nodes[i].kind == PLAIN
    ensures t.blocks[i].after <= p.functions[f].nodes[i].hostWrites
  {
    var n := p.functions[f].nodes[i];
    WidenMonotone(Loads(p, s, f, i) * LocalUnits(p, s, f), n.hostWrites);
  }

  /** An ordinary statement reads the source's values, helper or not. */
  lemma PlainSees(p: Program, s: Solution, f: Name, i: nat, t: Target, a: File, l: File, c: File)
    requires WellFormed(p) && Solved(p, s) && IsTransformed(p, s, f, t) && f in p.functions && f in s.livebefore
      && i < |p.functions[f].nodes|
    requires WellFormedNode(p.functions[f].nodes, p.functions[f].nodes[i]) && p.functions[f].nodes[i].kind == PLAIN
    requires Matches(p, s, f, i, t.locals, a, l, c)
    ensures var n := p.functions[f].nodes[i];
      Restrict(View(l, Override(c, l, t.blocks[i].before), t.locals - (n.hostReads + n.hostWrites)), n.uses)
        == Restrict(a, n.uses)
  {
    hide *;
    var n := p.functions[f].nodes[i];
    EmitAt(p, s, f, t, i);
    PlainShape(p.functions[f].nodes, i);
    OperandsLive(p, s, f, i);
    MatchesView(p, s, f, i, t.locals, a, l, c);
    StoresOfPlain(p, s, f, n);
    StoresHandOver(p, s, f, i, t, a, l, c, n.hostReads);
    var mine := t.locals - (n.hostReads + n.hostWrites);
    var c1 := Override(c, l, t.blocks[i].before);
    forall r | r in n.uses ensures At(View(l, c1, mine), r) == At(a, r) {
      AgreeAt(View(l, c, t.locals), a, LiveAt(s, f, i), r);
      if r in n.hostReads {
        AgreeAt(c1, a, n.hostReads, r);
      }
      SeesAt(r, t.locals, n, t.blocks[i].before, a, l, c);
    }
    SeenIs(View(l, c1, mine), a, n.uses);
  }

  lemma SeesAt(r: Reg, locals: set<Reg>, n: Node, before: set<Reg>, a: File, l: File, c: File)
    requires before <= locals && n.uses * n.hostWrites <= n.hostReads && r in n.uses
    requires At(View(l, c, locals), r) == At(a, r)
    requires r in n.hostReads ==> At(Override(c, l, before), r) == At(a, r)
    ensures At(View(l, Override(c, l, before), locals - (n.hostReads + n.hostWrites)), r) == At(a, r)
  {
  }

  lemma SeenIs(v: File, a: File, s: set<Reg>)
    requires forall r | r in s :: At(v, r) == At(a, r)
    ensures Restrict(v, s) == Restrict(a, s)
  {
  }

  lemma StoresOfPlain(p: Program, s: Solution, f: Name, n: Node)
    requires f in p.functions && n.kind == PLAIN
    ensures Stores(p, s, f, n) == n.hostReads
  {
  }

  lemma LoadsOfPlain(p: Program, s: Solution, f: Name, i: nat)
    requires f in p.functions && i < |p.functions[f].nodes| && p.functions[f].nodes[i].kind == PLAIN
      && f in s.livebefore
    ensures Loads(p, s, f, i) == p.functions[f].nodes[i].hostWrites
  {
  }

  /** One register across a statement: written where it lives, or left as it was. */
  lemma LandsAt(r: Reg, locals: set<Reg>, n: Node, before: set<Reg>, after: set<Reg>, a: File, l: File, c: File,
      out: File)
    requires before <= locals && after <= n.hostWrites <= n.writes && n.hostReads * n.writes <= n.hostWrites
    requires r in locals && r in n.hostWrites ==> r in after
    requires r !in n.writes ==> At(View(l, c, locals), r) == At(a, r)
    ensures var mine := locals - (n.hostReads + n.hostWrites);
      var c2 := Override(Override(c, l, before), out, n.writes - mine);
      var l2 := Override(Override(l, out, n.writes * mine), c2, after);
      At(View(l2, c2, locals), r) == At(Override(a, out, n.writes), r)
  {
  }

  lemma OutsideAt(r: Reg, localised: set<Reg>, locals: set<Reg>, n: Node, before: set<Reg>, a: File, l: File, c: File,
      out: File)
    requires before <= locals <= localised && r !in localised && At(c, r) == At(a, r)
    ensures var mine := locals - (n.hostReads + n.hostWrites);
      At(Override(Override(c, l, before), out, n.writes - mine), r) == At(Override(a, out, n.writes), r)
  {
  }

  /** What a helper writes to a field that has a local is loaded with the field. */
  lemma HelperLands(p: Program, s: Solution, f: Name, i: nat, r: Reg)
    requires WellFormed(p) && f in p.functions && f in s.livebefore && i < |p.functions[f].nodes|
    requires p.functions[f].nodes[i].kind == PLAIN && WellFormedNode(p.functions[f].nodes, p.functions[f].nodes[i])
    requires r in p.functions[f].nodes[i].hostWrites && r in Locals(p, s, f)
    ensures r in Emit(p, s, f, i).after
  {
    hide LocalUnits, WellFormed;
    var n := p.functions[f].nodes[i];
    if r !in LocalUnits(p, s, f) {
      var q :| q in LocalUnits(p, s, f) && q.Cr? && r.Cr? && q.field == r.field && r.bit < 4;
      assert q in Widen(n.hostWrites) by {
        FieldWide(p, s, f, q, r, n.hostWrites);
      }
    }
  }

  lemma FieldWide(p: Program, s: Solution, f: Name, q: Reg, r: Reg, writes: set<Reg>)
    requires WellFormed(p) && f in p.functions && q in LocalUnits(p, s, f)
    requires q.Cr? && r.Cr? && q.field == r.field && r in writes
    ensures q in Widen(writes)
  {
    hide LocalUnits, WellFormed;
    LocalBit(p, s, f, q);
    assert q == Cr(r.field, q.bit);
  }

  lemma LocalBit(p: Program, s: Solution, f: Name, q: Reg)
    requires WellFormed(p) && f in p.functions && q in LocalUnits(p, s, f) && q.Cr?
    ensures q.bit < 4
  {
  }

  /** A covered bit is written only by a helper. */
  lemma CoveredWrites(p: Program, s: Solution, f: Name, i: nat, r: Reg)
    requires WellFormed(p) && f in p.functions && i < |p.functions[f].nodes| && p.functions[f].nodes[i].kind == PLAIN
    requires Covered(p, s, f, r) && r in p.functions[f].nodes[i].writes
    ensures r in p.functions[f].nodes[i].hostWrites
  {
    hide WellFormedNodes, Selected, Widen;
    LocalsAre(p, s, f);
    assert WritesNamed(p.functions[f]);
    assert p.functions[f].nodes[i] in p.functions[f].nodes;
  }

  /** A covered bit across a statement stays right in the context too. */
  lemma CoveredAt(r: Reg, locals: set<Reg>, n: Node, before: set<Reg>, a: File, l: File, c: File, out: File)
    requires r in locals && (r in n.writes ==> r in n.hostWrites)
    requires r !in n.writes ==> At(View(l, c, locals), r) == At(a, r) && At(c, r) == At(a, r)
    ensures var mine := locals - (n.hostReads + n.hostWrites);
      At(Override(Override(c, l, before), out, n.writes - mine), r) == At(Override(a, out, n.writes), r)
  {
  }

  /** The values a statement writes land where the next one will look. */
  lemma PlainLands(p: Program, s: Solution, f: Name, i: nat, t: Target, a: File, l: File, c: File, out: File)
    requires WellFormed(p) && Solved(p, s) && IsTransformed(p, s, f, t) && f in p.functions && f in s.livebefore
      && i < |p.functions[f].nodes|
    requires WellFormedNode(p.functions[f].nodes, p.functions[f].nodes[i]) && p.functions[f].nodes[i].kind == PLAIN
    requires Matches(p, s, f, i, t.locals, a, l, c)
    ensures var n := p.functions[f].nodes[i];
      var mine := t.locals - (n.hostReads + n.hostWrites);
      var c2 := Override(Override(c, l, t.blocks[i].before), out, n.writes - mine);
      var l2 := Override(Override(l, out, n.writes * mine), c2, t.blocks[i].after);
      Matches(p, s, f, n.succ[0], t.locals, Override(a, out, n.writes), l2, c2)
  {
    hide *;
    var n := p.functions[f].nodes[i];
    EmitAt(p, s, f, t, i);
    LocalsAre(p, s, f);
    PlainLoads(p, s, f, i, t);
    LoadsOfPlain(p, s, f, i);
    PlainShape(p.functions[f].nodes, i);
    MatchesView(p, s, f, i, t.locals, a, l, c);
    var next := n.succ[0];
    var mine := t.locals - (n.hostReads + n.hostWrites);
    var c2 := Override(Override(c, l, t.blocks[i].before), out, n.writes - mine);
    var l2 := Override(Override(l, out, n.writes * mine), c2, t.blocks[i].after);
    var a' := Override(a, out, n.writes);
    forall r | r in LiveAt(s, f, next) ensures At(View(l2, c2, t.locals), r) == At(a', r) {
      LivePasses(p, s, f, i, next, r);
      WritesOfPlain(n);
      if r in t.locals && r in n.hostWrites {
        HelperLands(p, s, f, i, r);
      }
      if r !in n.writes {
        AgreeAt(View(l, c, t.locals), a, LiveAt(s, f, i), r);
      }
      LandsAt(r, t.locals, n, t.blocks[i].before, t.blocks[i].after, a, l, c, out);
    }
    forall r | r !in p.localised ensures At(c2, r) == At(a', r) {
      OutsideOf(c, a, p.localised, r);
      OutsideAt(r, p.localised, t.locals, n, t.blocks[i].before, a, l, c, out);
    }
    forall r | r in LiveAt(s, f, next) && Covered(p, s, f, r) ensures At(c2, r) == At(a', r) {
      LivePasses(p, s, f, i, next, r);
      WritesOfPlain(n);
      CoveredIsLocal(p, s, f, r);
      if r in n.writes {
        CoveredWrites(p, s, f, i, r);
      } else {
        AgreeAt(View(l, c, t.locals), a, LiveAt(s, f, i), r);
        CoveredIs(p, s, f, i, a, c, r);
      }
      CoveredAt(r, t.locals, n, t.blocks[i].before, a, l, c, out);
    }
    MatchesIs(p, s, f, next, t.locals, a', l2, c2);
  }

  lemma CoveredIsLocal(p: Program, s: Solution, f: Name, r: Reg)
    requires Covered(p, s, f, r)
    ensures f in p.functions && r in Locals(p, s, f) && r !in LocalUnits(p, s, f)
  {
  }

  lemma CoveredIs(p: Program, s: Solution, f: Name, i: nat, a: File, c: File, r: Reg)
    requires CoveredMatch(p, s, f, i, a, c) && r in LiveAt(s, f, i) && Covered(p, s, f, r)
    ensures At(c, r) == At(a, r)
  {
  }

  lemma MatchesIs(p: Program, s: Solution, f: Name, i: nat, locals: set<Reg>, a: File, l: File, c: File)
    requires forall r | r in LiveAt(s, f, i) :: At(View(l, c, locals), r) == At(a, r)
    requires forall r | r !in p.localised :: At(c, r) == At(a, r)
    requires forall r | r in LiveAt(s, f, i) && Covered(p, s, f, r) :: At(c, r) == At(a, r)
    ensures Matches(p, s, f, i, locals, a, l, c)
  {
    hide Covered;
  }

  lemma AgreeAt(a: File, b: File, s: set<Reg>, r: Reg)
    requires Agree(a, b, s) && r in s
    ensures At(a, r) == At(b, r)
  {
  }

  lemma OutsideOf(a: File, b: File, s: set<Reg>, r: Reg)
    requires AgreeOutside(a, b, s) && r !in s
    ensures At(a, r) == At(b, r)
  {
  }

  lemma WritesOfPlain(n: Node)
    requires n.kind == PLAIN
    ensures Writes(n) == n.writes
  {
  }

  lemma WritesOfOther(n: Node)
    requires n.kind != PLAIN
    ensures Writes(n) == {}
  {
  }

  lemma PlainShape(nodes: seq<Node>, i: nat)
    requires i < |nodes| && WellFormedNode(nodes, nodes[i]) && nodes[i].kind == PLAIN
    ensures var n := nodes[i];
      && |n.succ| > 0 && n.succ[0] in n.succ && n.succ[0] < |nodes|
      && n.defs <= n.writes && n.hostReads <= n.uses && n.hostWrites <= n.defs
      && n.uses * n.hostWrites <= n.hostReads && n.hostReads * n.writes <= n.hostWrites
  {
    assert nodes[i].succ[0] in nodes[i].succ;
  }

  /** An ordinary statement keeps the relation. */
  lemma PlainMatches(p: Program, m: Meaning, s: Solution, f: Name, i: nat, t: Target, a: File, l: File, c: File,
      w: World)
    requires WellFormed(p) && Solved(p, s) && IsTransformed(p, s, f, t) && f in p.functions && f in s.livebefore
      && i < |p.functions[f].nodes|
    requires WellFormedNode(p.functions[f].nodes, p.functions[f].nodes[i]) && p.functions[f].nodes[i].kind == PLAIN
    requires Matches(p, s, f, i, t.locals, a, l, c)
    requires t.blocks[i].node == p.functions[f].nodes[i]
    ensures var n := p.functions[f].nodes[i];
      var e := m.plain(f, i, Restrict(a, n.uses), w);
      var step := PlainStep(m, f, i, t, t.blocks[i], l, c, w);
      && step.next == n.succ[0] && step.world == e.world
      && Matches(p, s, f, n.succ[0], t.locals, Override(a, e.registers, n.writes), step.locals, step.context)
  {
    hide WellFormed, Solved, IsTransformed, Stores, Loads, LocalUnits, Locals, LiveAt, Emit, Matches, Override, View,
      Restrict;
    var n := p.functions[f].nodes[i];
    PlainSees(p, s, f, i, t, a, l, c);
    PlainLands(p, s, f, i, t, a, l, c, m.plain(f, i, Restrict(a, n.uses), w).registers);
  }

  ghost predicate StepsMatch(p: Program, s: Solution, f: Name, t: Target, b: Block, a: File, l: File, c: File,
      step: Step, target: TargetStep) {
    match (step, target)
    case (Ends(o), TEnds(o')) =>
      && SameShow(o, o')
      && (o.Returned? ==> Agree(o'.file, o.file, Lookup(s.ret, f)) && AgreeOutside(o'.file, o.file, p.localised))
    case (Goes(next, a', w'), TGoes(next', l', c', w'')) =>
      next == next' && w' == w'' && next < |t.blocks| && Matches(p, s, f, next, t.locals, a', l', c')
    case (Calls(g, shown, w', next), TCalls(g', shown', c1, w'', next', loads)) =>
      && g == g' && shown == shown' && w' == w'' && next == next' && next < |t.blocks|
      && loads == b.after && c1 == Override(c, l, b.before)
      && Agree(c1, a, CalleeLivein(p, s.livein, g)) && AgreeOutside(c1, a, p.localised)
    case _ => false
  }

  lemma CallsMatchIs(p: Program, s: Solution, f: Name, t: Target, b: Block, a: File, l: File, c: File, g: Name,
      shown: File, w: World, next: nat)
    requires next < |t.blocks|
    requires var c1 := Override(c, l, b.before);
      Agree(c1, a, CalleeLivein(p, s.livein, g)) && AgreeOutside(c1, a, p.localised)
    ensures StepsMatch(p, s, f, t, b, a, l, c, Calls(g, shown, w, next),
      TCalls(g, shown, Override(c, l, b.before), w, next, b.after))
  {
  }

  lemma GoesMatchIs(p: Program, s: Solution, f: Name, t: Target, b: Block, a: File, l: File, c: File, next: nat,
      a': File, l': File, c': File, w: World)
    requires next < |t.blocks| && Matches(p, s, f, next, t.locals, a', l', c')
    ensures StepsMatch(p, s, f, t, b, a, l, c, Goes(next, a', w), TGoes(next, l', c', w))
  {
  }

  /** One step of the target does what the source's does: ends with the same values in the
      context, goes on in step, or makes the same call from a context that matches it. */
  lemma StepMatches(p: Program, m: Meaning, s: Solution, f: Name, i: nat, t: Target, a: File, l: File, c: File,
      w: World)
    requires Conventional(p, m, s) && Solved(p, s) && IsTransformed(p, s, f, t)
    requires f in p.functions && f in s.livebefore && i < |p.functions[f].nodes| == |t.blocks|
    requires WellFormedNode(p.functions[f].nodes, p.functions[f].nodes[i])
      && t.blocks[i].node == p.functions[f].nodes[i]
    requires p.functions[f].nodes[i].kind != EXIT ==> |p.functions[f].nodes[i].succ| > 0
    requires Matches(p, s, f, i, t.locals, a, l, c)
    ensures StepsMatch(p, s, f, t, t.blocks[i], a, l, c, StepAt(p, m, f, i, a, w), TargetStepAt(m, f, i, t, l, c, w))
  {
    hide *;
    var n := p.functions[f].nodes[i];
    ConventionalHas(p, m, s, f);
    EmitAt(p, s, f, t, i);
    StepNext(p, m, f, i, a, w);
    match n.kind
    case EXIT => ExitMatches(p, m, s, f, i, t, a, l, c, w);
    case PLAIN =>
      PlainMatches(p, m, s, f, i, t, a, l, c, w);
      PlainSteps(p, m, f, i, t, a, l, c, w);
      var step := PlainStep(m, f, i, t, t.blocks[i], l, c, w);
      var e := m.plain(f, i, Restrict(a, n.uses), w);
      GoesMatchIs(p, s, f, t, t.blocks[i], a, l, c, n.succ[0], Override(a, e.registers, n.writes), step.locals,
        step.context, e.world);
    case BRANCH => StillMatches(p, m, s, f, i, t, a, l, c, w);
    case _ =>
      if IsDropped(p, n) {
        StillMatches(p, m, s, f, i, t, a, l, c, w);
      } else {
        CallMatches(p, m, s, f, i, t, a, l, c, w);
      }
  }

  lemma PlainSteps(p: Program, m: Meaning, f: Name, i: nat, t: Target, a: File, l: File, c: File, w: World)
    requires f in p.functions && i < |p.functions[f].nodes| == |t.blocks|
    requires WellFormedNode(p.functions[f].nodes, p.functions[f].nodes[i])
    requires t.blocks[i].node == p.functions[f].nodes[i] && p.functions[f].nodes[i].kind == PLAIN
    ensures var n := p.functions[f].nodes[i];
      var e := m.plain(f, i, Restrict(a, n.uses), w);
      && StepAt(p, m, f, i, a, w) == Goes(n.succ[0], Override(a, e.registers, n.writes), e.world)
      && TargetStepAt(m, f, i, t, l, c, w) == PlainStep(m, f, i, t, t.blocks[i], l, c, w)
      && PlainStep(m, f, i, t, t.blocks[i], l, c, w).TGoes?
  {
  }

  lemma ExitMatches(p: Program, m: Meaning, s: Solution, f: Name, i: nat, t: Target, a: File, l: File, c: File,
      w: World)
    requires WellFormed(p) && Solved(p, s) && IsTransformed(p, s, f, t)
    requires f in p.functions && f in s.livebefore && i < |p.functions[f].nodes| == |t.blocks|
    requires WellFormedNode(p.functions[f].nodes, p.functions[f].nodes[i])
      && t.blocks[i].node == p.functions[f].nodes[i]
    requires p.functions[f].nodes[i].kind == EXIT && Matches(p, s, f, i, t.locals, a, l, c)
    ensures StepsMatch(p, s, f, t, t.blocks[i], a, l, c, StepAt(p, m, f, i, a, w), TargetStepAt(m, f, i, t, l, c, w))
  {
    hide WellFormed, Solved, IsTransformed, LocalUnits, Locals, LiveAt, Emit, Matches, Agree, AgreeOutside, Override,
      WellFormedNode;
    OperandsLive(p, s, f, i);
    if p.functions[f].nodes[i].leaves {
      StoresHandOver(p, s, f, i, t, a, l, c, Lookup(s.ret, f));
    }
  }

  /** A branch, or a dropped helper call, moves no register. */
  lemma StillMatches(p: Program, m: Meaning, s: Solution, f: Name, i: nat, t: Target, a: File, l: File, c: File,
      w: World)
    requires WellFormed(p) && Solved(p, s) && IsTransformed(p, s, f, t)
    requires f in p.functions && f in s.livebefore && i < |p.functions[f].nodes| == |t.blocks|
    requires WellFormedNode(p.functions[f].nodes, p.functions[f].nodes[i])
      && t.blocks[i].node == p.functions[f].nodes[i]
    requires t.blocks[i].dropped == IsDropped(p, p.functions[f].nodes[i])
    requires |p.functions[f].nodes[i].succ| > 0
    requires p.functions[f].nodes[i].kind == BRANCH || IsDropped(p, p.functions[f].nodes[i])
    requires Matches(p, s, f, i, t.locals, a, l, c)
    ensures StepsMatch(p, s, f, t, t.blocks[i], a, l, c, StepAt(p, m, f, i, a, w), TargetStepAt(m, f, i, t, l, c, w))
  {
    hide WellFormed, Solved, IsTransformed, Matches, Override, Restrict, View;
    var n := p.functions[f].nodes[i];
    OperandsMatch(p, s, f, i, t, a, l, c);
    StepNext(p, m, f, i, a, w);
    StillAt(p, s, f, i, StepAt(p, m, f, i, a, w).next, t.locals, a, l, c);
  }

  lemma StillAt(p: Program, s: Solution, f: Name, i: nat, next: nat, locals: set<Reg>, a: File, l: File, c: File)
    requires Solved(p, s) && f in p.functions && i < |p.functions[f].nodes|
    requires var n := p.functions[f].nodes[i];
      && WellFormedNode(p.functions[f].nodes, n) && (n.kind == BRANCH || IsDropped(p, n))
      && next in n.succ && next < |p.functions[f].nodes|
    requires Matches(p, s, f, i, locals, a, l, c)
    ensures Matches(p, s, f, next, locals, a, l, c)
  {
    hide Solved, LiveAt, View, Covered, Writes;
    WritesOfOther(p.functions[f].nodes[i]);
    forall r | r in LiveAt(s, f, next) ensures r in LiveAt(s, f, i) {
      LivePasses(p, s, f, i, next, r);
    }
  }

  lemma CallMatches(p: Program, m: Meaning, s: Solution, f: Name, i: nat, t: Target, a: File, l: File, c: File,
      w: World)
    requires Conventional(p, m, s) && WellFormed(p) && Solved(p, s) && IsTransformed(p, s, f, t)
    requires f in p.functions && f in s.livebefore && i < |p.functions[f].nodes| == |t.blocks|
    requires WellFormedNode(p.functions[f].nodes, p.functions[f].nodes[i])
      && t.blocks[i].node == p.functions[f].nodes[i]
    requires t.blocks[i].dropped == IsDropped(p, p.functions[f].nodes[i]) && !t.blocks[i].dropped
    requires p.functions[f].nodes[i].kind in {CALL, ICALL} && |p.functions[f].nodes[i].succ| > 0
    requires Matches(p, s, f, i, t.locals, a, l, c)
    ensures StepsMatch(p, s, f, t, t.blocks[i], a, l, c, StepAt(p, m, f, i, a, w), TargetStepAt(m, f, i, t, l, c, w))
  {
    hide *;
    var n := p.functions[f].nodes[i];
    var c1 := Override(c, l, t.blocks[i].before);
    OperandsMatch(p, s, f, i, t, a, l, c);
    OperandsLive(p, s, f, i);
    CallSteps(p, m, f, i, t, a, l, c, w);
    CalleeSets(p, m, s, f, i, a, w);
    CallHandsOver(p, m, s, f, i, a, w);
    var g := StepAt(p, m, f, i, a, w).callee;
    StoresHandOver(p, s, f, i, t, a, l, c, CalleeLivein(p, s.livein, g) + n.site);
    AgreeLess(c1, a, CalleeLivein(p, s.livein, g) + n.site, CalleeLivein(p, s.livein, g));
    AgreeLess(c1, a, CalleeLivein(p, s.livein, g) + n.site, n.site);
    AgreeRestrict(c1, a, n.site);
    StepNext(p, m, f, i, a, w);
    CallsMatchIs(p, s, f, t, t.blocks[i], a, l, c, g, Restrict(a, n.site), m.hook(f, i, Restrict(a, n.site), w),
      n.succ[0]);
  }

  /** Everything the callee may read, and the host at the call site, is stored first. */
  lemma CallHandsOver(p: Program, m: Meaning, s: Solution, f: Name, i: nat, a: File, w: World)
    requires Conventional(p, m, s) && f in p.functions && i < |p.functions[f].nodes|
    requires WellFormedNode(p.functions[f].nodes, p.functions[f].nodes[i])
    ensures var n := p.functions[f].nodes[i];
      match StepAt(p, m, f, i, a, w)
      case Calls(g, _, _, _) => CalleeLivein(p, s.livein, g) + n.site <= Stores(p, s, f, n)
      case _ => true
  {
    hide WellFormed, WritesKnown, HelpersReturn, CalleeLivein;
    var n := p.functions[f].nodes[i];
    assert n.kind == ICALL ==> IndirectTarget(p, s, m.target(f, i, Restrict(a, n.uses), w));
  }

  lemma CallSteps(p: Program, m: Meaning, f: Name, i: nat, t: Target, a: File, l: File, c: File, w: World)
    requires f in p.functions && i < |p.functions[f].nodes| == |t.blocks|
    requires var n := p.functions[f].nodes[i];
      && WellFormedNode(p.functions[f].nodes, n) && t.blocks[i].node == n && |n.succ| > 0
      && n.kind in {CALL, ICALL} && !IsDropped(p, n) && !t.blocks[i].dropped
      && (n.kind == ICALL ==> Restrict(View(l, c, t.locals), n.uses) == Restrict(a, n.uses))
    ensures var n := p.functions[f].nodes[i];
      var c1 := Override(c, l, t.blocks[i].before);
      var g := CalleeOf(m, f, i, n, Restrict(a, n.uses), w);
      && StepAt(p, m, f, i, a, w) == Calls(g, Restrict(a, n.site), m.hook(f, i, Restrict(a, n.site), w), n.succ[0])
      && TargetStepAt(m, f, i, t, l, c, w) ==
          TCalls(g, Restrict(c1, n.site), c1, m.hook(f, i, Restrict(c1, n.site), w), n.succ[0], t.blocks[i].after)
  {
    hide Restrict, Override, View;
  }

  // ------------------------------------------------------------ coming back from a call

  /** One register across a call: in the context and loaded, or kept in its local. */
  lemma BackAt(r: Reg, locals: set<Reg>, loads: set<Reg>, a: File, l: File, c: File, a': File, c': File)
    requires (At(c', r) == At(a', r) && (r in locals ==> r in loads))
      || (r in locals && r !in loads && At(View(l, c, locals), r) == At(a, r) && At(a', r) == At(a, r))
    ensures At(View(Override(l, c', loads), c', locals), r) == At(a', r)
  {
  }

  /** Nothing a call brings back is a condition bit the convention preserves. */
  lemma BackNotKept(p: Program, m: Meaning, s: Solution, f: Name, i: nat, q: Reg)
    requires Conventional(p, m, s) && Solved(p, s)
    requires f in p.functions && i < |p.functions[f].nodes|
    requires p.functions[f].nodes[i].kind in {CALL, ICALL}
    requires q in Kill(p, s.ret, s.indirectRet, p.functions[f].nodes[i]) && q in p.localised
    ensures Volatile(q) || Saveable(q)
  {
    hide WritesKnown, HelpersReturn, IndirectTarget, IsNoreturn, IsLeastClobbers, Settled, CallSupplied, RetsBounded;
    var n := p.functions[f].nodes[i];
    KeptOrVolatileOrSaveable(q);
    if n.kind == CALL && n.callee in p.functions {
      RetNotRestored(p, m, s, n.callee);
    }
  }

  /** A live register the caller keeps across a call is as it was before it. */
  lemma KeptAcross(p: Program, m: Meaning, s: Solution, f: Name, i: nat, g: Name, r: Reg, a: File, a': File)
    requires Conventional(p, m, s) && Solved(p, s) && !Volatile(r)
    requires CallOf(p, s, f, i, g)
    requires f in s.livebefore && r in LiveAfter(p, s, f, i) && r in p.localised
    requires r !in Kill(p, s.ret, s.indirectRet, p.functions[f].nodes[i])
    requires KeptBut(p, a, a', CalleeClobbers(s.noreturn, s.clobbers, g)) && KeptFields(a, a')
    ensures At(a', r) == At(a, r)
  {
    hide *;
    ConventionalHas(p, m, s, f);
    LocalisedIs(p, r);
    if r in CalleeClobbers(s.noreturn, s.clobbers, g) {
      ClobberedIsBack(p, s, f, i, g, r);
    }
    KeptIs(p, a, a', CalleeClobbers(s.noreturn, s.clobbers, g), r);
  }

  lemma LocalisedIs(p: Program, r: Reg)
    requires WellFormed(p) && r in p.localised
    ensures Volatile(r) || Saveable(r) || r in KEPT_FIELDS
    ensures Saveable(r) ==> HelpersOut(p)
  {
    hide Widen;
    KeptOrVolatileOrSaveable(r);
  }

  lemma KeptIs(p: Program, a: File, b: File, changed: set<Reg>, r: Reg)
    requires KeptBut(p, a, b, changed) && KeptFields(a, b) && (Saveable(r) ==> HelpersOut(p))
    ensures (Saveable(r) && r !in changed) || r in KEPT_FIELDS ==> At(a, r) == At(b, r)
  {
  }

  /** A live register a callee leaves changed is one it brings back. */
  lemma ClobberedIsBack(p: Program, s: Solution, f: Name, i: nat, g: Name, r: Reg)
    requires Solved(p, s) && CallOf(p, s, f, i, g)
    requires f in s.livebefore && r in LiveAfter(p, s, f, i) && r in p.localised
    requires r in CalleeClobbers(s.noreturn, s.clobbers, g)
    ensures r in Kill(p, s.ret, s.indirectRet, p.functions[f].nodes[i])
  {
    hide IsNoreturn, Settled, RetsBounded, ReadAfter, ClobberEquation;
    assert s.clobbers.Keys == p.functions.Keys;
    assert CallSupplied(p, s, f, i);
    assert Needed(p, s, f, i, r);
  }

  /** g is where the call at node i goes, and it comes back. */
  ghost predicate CallOf(p: Program, s: Solution, f: Name, i: nat, g: Name) {
    && f in p.functions && i < |p.functions[f].nodes|
    && !Dropped(p, g) && g !in s.noreturn
    && (p.functions[f].nodes[i].kind == CALL ==> g == p.functions[f].nodes[i].callee)
    && (p.functions[f].nodes[i].kind == ICALL ==> CalleeClobbers(s.noreturn, s.clobbers, g) == {})
    && p.functions[f].nodes[i].kind in {CALL, ICALL}
  }

  lemma CallKind(p: Program, s: Solution, f: Name, i: nat, g: Name)
    requires CallOf(p, s, f, i, g)
    ensures f in p.functions && i < |p.functions[f].nodes| && p.functions[f].nodes[i].kind in {CALL, ICALL}
  {
  }

  lemma SideAt(p: Program, s: Solution, f: Name, i: nat, g: Name, r: Reg)
    requires AllComeBack(p, s) && CallOf(p, s, f, i, g) && f in s.livebefore
    requires r in LiveAfter(p, s, f, i) && r in p.localised
    ensures ComesBackAt(p, s, f, i, r)
  {
    assert ComesBack(p, s, f, i);
  }

  lemma LiveNext(p: Program, s: Solution, f: Name, i: nat, next: nat, r: Reg)
    requires Solved(p, s) && f in p.functions && f in s.livebefore && i < |p.functions[f].nodes|
    requires next in p.functions[f].nodes[i].succ && r in LiveAt(s, f, next)
    ensures r in LiveAfter(p, s, f, i)
    ensures next < |p.functions[f].nodes| ==>
      r in Kill(p, s.ret, s.indirectRet, p.functions[f].nodes[i]) || r in LiveAt(s, f, i)
  {
    LiveFacts(p, s, f, i);
    hide Solved, Kill;
  }

  /** What a call leaves in the context as it was there: everything carried. */
  ghost predicate Carries(p: Program, s: Solution, g: Name, a: File, c: File, a': File, c': File) {
    forall r | Carried(p, s, g, r) && At(c, r) == At(a, r) :: At(c', r) == At(a', r)
  }

  ghost predicate LeavesAlone(p: Program, s: Solution, g: Name, a: File, a': File) {
    forall r | Untouched(p, s, g, r) :: At(a', r) == At(a, r)
  }

  /** What is known of a call that came back alike: a and a' are the source's registers before
      and after it, l the caller's locals, c and c' the context. */
  ghost predicate CameBack(p: Program, s: Solution, f: Name, i: nat, t: Target, g: Name,
                           a: File, l: File, c: File, a': File, c': File)
    requires i < |t.blocks|
  {
    && Matches(p, s, f, i, t.locals, a, l, c)
    && Agree(c', a', CalleeRet(p, s.ret, g)) && AgreeOutside(c', a', p.localised)
    && KeptBut(p, a, a', CalleeClobbers(s.noreturn, s.clobbers, g)) && KeptFields(a, a')
    && Carries(p, s, g, a, Override(c, l, t.blocks[i].before), a', c') && LeavesAlone(p, s, g, a, a')
  }

  /** After its loads the target sees the source's r, and so does the context if r is only covered. */
  ghost predicate Sees(p: Program, s: Solution, f: Name, t: Target, i: nat, r: Reg, l: File, a': File, c': File)
    requires i < |t.blocks|
  {
    && At(View(Override(l, c', t.blocks[i].after), c', t.locals), r) == At(a', r)
    && (Covered(p, s, f, r) ==> At(c', r) == At(a', r))
  }

  lemma CarriedByCallee(p: Program, s: Solution, f: Name, i: nat, g: Name, r: Reg)
    requires CallOf(p, s, f, i, g) && CarriedBy(p, s, p.functions[f].nodes[i], r)
    ensures Carried(p, s, g, r) && Volatile(r)
  {
    hide AllQuiet, Dropped, CalleeClobbers;
  }

  lemma UntouchedByCallee(p: Program, s: Solution, f: Name, i: nat, g: Name, r: Reg, a: File, a': File)
    requires CallOf(p, s, f, i, g) && UntouchedBy(p, s, p.functions[f].nodes[i], r) && LeavesAlone(p, s, g, a, a')
    ensures At(a', r) == At(a, r)
  {
    hide Untouched, Dropped, CalleeClobbers;
  }

  lemma CarriedAt(p: Program, s: Solution, g: Name, r: Reg, a: File, c: File, a': File, c': File)
    requires Carries(p, s, g, a, c, a', c') && Carried(p, s, g, r) && At(c, r) == At(a, r)
    ensures At(c', r) == At(a', r)
  {
  }

  lemma CameBackHas(p: Program, s: Solution, f: Name, i: nat, t: Target, g: Name, a: File, l: File, c: File, a': File,
      c': File)
    requires i < |t.blocks| && CameBack(p, s, f, i, t, g, a, l, c, a', c')
    ensures Matches(p, s, f, i, t.locals, a, l, c)
    ensures Agree(c', a', CalleeRet(p, s.ret, g)) && AgreeOutside(c', a', p.localised)
    ensures KeptBut(p, a, a', CalleeClobbers(s.noreturn, s.clobbers, g)) && KeptFields(a, a')
    ensures Carries(p, s, g, a, Override(c, l, t.blocks[i].before), a', c') && LeavesAlone(p, s, g, a, a')
  {
    hide Untouched, Carried;
  }

  /** A live register that comes back is seen again. */
  lemma SeenBack(p: Program, m: Meaning, s: Solution, f: Name, i: nat, t: Target, next: nat, g: Name, r: Reg,
                 a: File, l: File, c: File, a': File, c': File)
    requires Conventional(p, m, s) && Solved(p, s) && IsTransformed(p, s, f, t)
    requires f in p.functions && f in s.livebefore && i < |p.functions[f].nodes| == |t.blocks|
    requires CallOf(p, s, f, i, g) && !IsDropped(p, p.functions[f].nodes[i])
    requires Kill(p, s.ret, s.indirectRet, p.functions[f].nodes[i]) <= CalleeRet(p, s.ret, g)
    requires next in p.functions[f].nodes[i].succ && next < |t.blocks|
    requires r in LiveAt(s, f, next) && r in p.localised && ComesBackAt(p, s, f, i, r)
    requires CameBack(p, s, f, i, t, g, a, l, c, a', c')
    ensures Sees(p, s, f, t, i, r, l, a', c')
  {
    hide *;
    CallKind(p, s, f, i, g);
    ConventionalHas(p, m, s, f);
    CameBackHas(p, s, f, i, t, g, a, l, c, a', c');
    MatchesView(p, s, f, i, t.locals, a, l, c);
    EmitAt(p, s, f, t, i);
    LocalsAre(p, s, f);
    LiveNext(p, s, f, i, next, r);
    ComesBackIs(p, s, f, i, r);
    if InContext(p, s, f, i, r) {
      ContextBack(p, s, f, i, t, g, r, a, l, c, a', c');
    }
    if r in t.locals && r !in t.blocks[i].after {
      LocalBack(p, m, s, f, i, t, g, r, a, l, c, a', c');
      AgreeAt(View(l, c, t.locals), a, LiveAt(s, f, i), r);
    }
    BackAt(r, t.locals, t.blocks[i].after, a, l, c, a', c');
    SeesIs(p, s, f, t, i, r, l, a', c');
  }

  /** What the condition says is right in the context is. */
  lemma ContextBack(p: Program, s: Solution, f: Name, i: nat, t: Target, g: Name, r: Reg,
                    a: File, l: File, c: File, a': File, c': File)
    requires CallOf(p, s, f, i, g) && f in s.livebefore && i < |t.blocks| && r in p.localised
    requires t.locals == Locals(p, s, f) && t.blocks[i] == Emit(p, s, f, i) && t.blocks[i].before <= t.locals
    requires Kill(p, s.ret, s.indirectRet, p.functions[f].nodes[i]) <= CalleeRet(p, s.ret, g)
    requires r !in Kill(p, s.ret, s.indirectRet, p.functions[f].nodes[i]) ==> r in LiveAt(s, f, i)
    requires InContext(p, s, f, i, r) && CameBack(p, s, f, i, t, g, a, l, c, a', c')
    ensures At(c', r) == At(a', r)
  {
    hide *;
    CallKind(p, s, f, i, g);
    CameBackHas(p, s, f, i, t, g, a, l, c, a', c');
    InContextIs(p, s, f, i, r);
    if r in Kill(p, s.ret, s.indirectRet, p.functions[f].nodes[i]) {
      AgreeAt(c', a', CalleeRet(p, s.ret, g), r);
    } else {
      CarriedByCallee(p, s, f, i, g, r);
      HandedAt(p, s, f, i, t, r, a, l, c);
      CarriedAt(p, s, g, r, a, Override(c, l, t.blocks[i].before), a', c');
    }
  }

  lemma InContextIs(p: Program, s: Solution, f: Name, i: nat, r: Reg)
    requires f in p.functions && f in s.livebefore && i < |p.functions[f].nodes| && InContext(p, s, f, i, r)
    ensures r !in Kill(p, s.ret, s.indirectRet, p.functions[f].nodes[i]) ==>
      CarriedBy(p, s, p.functions[f].nodes[i], r) && (r in LocalUnits(p, s, f) ==> r in Emit(p, s, f, i).before)
  {
  }

  /** What the condition says is right in the local is, and its old value is the new one. */
  lemma LocalBack(p: Program, m: Meaning, s: Solution, f: Name, i: nat, t: Target, g: Name, r: Reg,
                  a: File, l: File, c: File, a': File, c': File)
    requires Conventional(p, m, s) && Solved(p, s) && WellFormed(p)
    requires CallOf(p, s, f, i, g) && f in s.livebefore && i < |t.blocks|
    requires t.locals == Locals(p, s, f) && t.blocks[i] == Emit(p, s, f, i)
    requires !IsDropped(p, p.functions[f].nodes[i])
    requires Loads(p, s, f, i) * LocalUnits(p, s, f) <= t.blocks[i].after
    requires r in LiveAfter(p, s, f, i) && r in p.localised && r !in t.blocks[i].after
    requires r !in Kill(p, s.ret, s.indirectRet, p.functions[f].nodes[i]) ==> r in LiveAt(s, f, i)
    requires InLocal(p, s, f, i, r) && CameBack(p, s, f, i, t, g, a, l, c, a', c')
    ensures At(a', r) == At(a, r) && r in LiveAt(s, f, i)
    ensures r in LocalUnits(p, s, f) || InContext(p, s, f, i, r)
  {
    hide *;
    CameBackHas(p, s, f, i, t, g, a, l, c, a', c');
    CallKind(p, s, f, i, g);
    InLocalIs(p, s, f, i, r);
    if Volatile(r) {
      UntouchedByCallee(p, s, f, i, g, r, a, a');
    } else {
      if r in Kill(p, s.ret, s.indirectRet, p.functions[f].nodes[i]) {
        LoadedAt(p, s, f, i, r);
      }
      KeptAcross(p, m, s, f, i, g, r, a, a');
    }
  }

  lemma InLocalIs(p: Program, s: Solution, f: Name, i: nat, r: Reg)
    requires f in p.functions && f in s.livebefore && i < |p.functions[f].nodes| && InLocal(p, s, f, i, r)
    ensures Volatile(r) ==>
      && r in LiveAt(s, f, i) && UntouchedBy(p, s, p.functions[f].nodes[i], r)
      && (r in LocalUnits(p, s, f) || InContext(p, s, f, i, r))
    ensures !Volatile(r) ==> r in LocalUnits(p, s, f)
  {
  }

  lemma SeesIs(p: Program, s: Solution, f: Name, t: Target, i: nat, r: Reg, l: File, a': File, c': File)
    requires i < |t.blocks|
    ensures Sees(p, s, f, t, i, r, l, a', c') <==>
      && At(View(Override(l, c', t.blocks[i].after), c', t.locals), r) == At(a', r)
      && (f in p.functions && r in Locals(p, s, f) && r !in LocalUnits(p, s, f) ==> At(c', r) == At(a', r))
  {
  }

  /** A carried register is right in the context before the call: it has no local, is stored
      from the local of its own name, or is covered. */
  lemma HandedAt(p: Program, s: Solution, f: Name, i: nat, t: Target, r: Reg, a: File, l: File, c: File)
    requires f in p.functions && i < |t.blocks| && t.locals == Locals(p, s, f) && t.blocks[i].before <= t.locals
    requires Matches(p, s, f, i, t.locals, a, l, c) && r in LiveAt(s, f, i)
    requires r in LocalUnits(p, s, f) ==> r in t.blocks[i].before
    ensures At(Override(c, l, t.blocks[i].before), r) == At(a, r)
  {
    hide LocalUnits, Locals, LiveAt;
  }

  /** Every way the call may come back leaves the target seeing the source's r. */
  ghost predicate SureToSee(p: Program, s: Solution, f: Name, i: nat, t: Target, g: Name, r: Reg)
    requires i < |t.blocks|
  {
    forall a, l, c, a', c' | CameBack(p, s, f, i, t, g, a, l, c, a', c') :: Sees(p, s, f, t, i, r, l, a', c')
  }

  /** A saved register that a function passes from its caller, or reads of it, always comes back:
      it has a local of its own, so that no callee in between can leave its value in its place. */
  lemma PassedComesBack(p: Program, s: Solution, f: Name, i: nat, r: Reg)
    requires WellFormed(p) && f in p.functions && f in s.livebefore && i < |p.functions[f].nodes|
    requires p.functions[f].nodes[i].kind in {CALL, ICALL} && !IsDropped(p, p.functions[f].nodes[i])
    requires r in p.localised && Saveable(r) && r in Lookup(s.livein, f)
    ensures ComesBackAt(p, s, f, i, r)
  {
    var n := p.functions[f].nodes[i];
    assert !Volatile(r) && !r.Cr?;
    if r in Emit(p, s, f, i).after {
      assert r in Loads(p, s, f, i);
      assert r in Kill(p, s.ret, s.indirectRet, n);
    }
    hide CarriedBy, UntouchedBy, LiveAfter, Stores;
  }

  /** The condition is exact at every direct call that may come back: a live
      register is seen again, whatever the registers and whatever the callee left within what
      is known of it, if and only if it comes back as the condition says. */
  lemma SeenIffComesBack(p: Program, m: Meaning, s: Solution, f: Name, i: nat, t: Target, next: nat, g: Name, r: Reg)
    requires Conventional(p, m, s) && Solved(p, s) && IsTransformed(p, s, f, t)
    requires f in p.functions && f in s.livebefore && i < |p.functions[f].nodes| == |t.blocks|
    requires CallOf(p, s, f, i, g) && p.functions[f].nodes[i].kind == CALL
    requires next in p.functions[f].nodes[i].succ && next < |t.blocks|
    requires r in LiveAt(s, f, next) && r in p.localised
    ensures SureToSee(p, s, f, i, t, g, r) <==> ComesBackAt(p, s, f, i, r)
  {
    hide *;
    ConventionalHas(p, m, s, f);
    EmitAt(p, s, f, t, i);
    DirectCall(p, s, f, i, g);
    LocalsAre(p, s, f);
    ComesBackIs(p, s, f, i, r);
    if ComesBackAt(p, s, f, i, r) {
      forall a, l, c, a', c' | CameBack(p, s, f, i, t, g, a, l, c, a', c') ensures Sees(p, s, f, t, i, r, l, a', c') {
        SeenBack(p, m, s, f, i, t, next, g, r, a, l, c, a', c');
      }
      SureIs(p, s, f, i, t, g, r);
    } else {
      if r in t.locals && r !in t.blocks[i].after {
        LostInLocal(p, m, s, f, i, t, next, g, r);
      } else {
        LostInContext(p, m, s, f, i, t, g, r);
      }
    }
  }

  lemma SureIs(p: Program, s: Solution, f: Name, i: nat, t: Target, g: Name, r: Reg)
    requires i < |t.blocks|
    requires forall a, l, c, a', c' | CameBack(p, s, f, i, t, g, a, l, c, a', c') :: Sees(p, s, f, t, i, r, l, a', c')
    ensures SureToSee(p, s, f, i, t, g, r)
  {
    hide CameBack, Sees;
  }

  lemma DirectCall(p: Program, s: Solution, f: Name, i: nat, g: Name)
    requires CallOf(p, s, f, i, g) && p.functions[f].nodes[i].kind == CALL
    ensures !IsDropped(p, p.functions[f].nodes[i])
    ensures Kill(p, s.ret, s.indirectRet, p.functions[f].nodes[i]) == CalleeRet(p, s.ret, g)
  {
  }

  /** A callee may change what it returns. */
  lemma ReturnedMayChange(p: Program, m: Meaning, s: Solution, f: Name, i: nat, g: Name, r: Reg)
    requires Conventional(p, m, s) && Solved(p, s) && CallOf(p, s, f, i, g) && p.functions[f].nodes[i].kind == CALL
    requires r in CalleeRet(p, s.ret, g) && r in p.localised
    ensures Volatile(r) || (Saveable(r) && r in CalleeClobbers(s.noreturn, s.clobbers, g))
  {
    hide *;
    DirectCall(p, s, f, i, g);
    CallKind(p, s, f, i, g);
    BackNotKept(p, m, s, f, i, r);
    RetIs(p, s, g, r);
  }

  lemma RetIs(p: Program, s: Solution, g: Name, r: Reg)
    requires Solved(p, s) && r in CalleeRet(p, s.ret, g)
    ensures Volatile(r) || r in CalleeClobbers(s.noreturn, s.clobbers, g)
  {
    hide IsNoreturn, IsLeastClobbers, Settled, CallSupplied, CalleeClobbers;
    assert MayReturn(p, s, g, r);
  }

  lemma CoveredIsBit(p: Program, s: Solution, f: Name, r: Reg)
    requires Covered(p, s, f, r)
    ensures !Saveable(r)
  {
    hide LocalUnits;
  }

  /** Looked for in a local that is not right about it, r is lost. */
  lemma LostInLocal(p: Program, m: Meaning, s: Solution, f: Name, i: nat, t: Target, next: nat, g: Name, r: Reg)
    requires Conventional(p, m, s) && Solved(p, s) && IsTransformed(p, s, f, t)
    requires f in p.functions && f in s.livebefore && i < |p.functions[f].nodes| == |t.blocks|
    requires CallOf(p, s, f, i, g) && p.functions[f].nodes[i].kind == CALL
    requires next in p.functions[f].nodes[i].succ && next < |t.blocks| && r in LiveAt(s, f, next)
    requires r in p.localised && r in Locals(p, s, f) && r !in t.blocks[i].after && !InLocal(p, s, f, i, r)
    ensures !SureToSee(p, s, f, i, t, g, r)
  {
    hide *;
    ConventionalHas(p, m, s, f);
    EmitAt(p, s, f, t, i);
    LocalsAre(p, s, f);
    DirectCall(p, s, f, i, g);
    VolatileOnly(r);
    NotInLocal(p, s, f, i, g, r);
    CarriedIsVolatile(p, s, g, r);
    CoveredMeans(p, s, f, r);
    LiveNext(p, s, f, i, next, r);
    if r in CalleeRet(p, s.ret, g) {
      ReturnedMayChange(p, m, s, f, i, g, r);
    }
    if !Volatile(r) {
      CoveredIsBit(p, s, f, r);
      LostBy(p, s, f, i, t, g, r, 0, 0, 0, 1);
    } else if !Untouched(p, s, g, r) {
      LostBy(p, s, f, i, t, g, r, 0, 0, 1, 1);
    } else if r !in LiveAt(s, f, i) {
      LostBy(p, s, f, i, t, g, r, 1, 0, 0, 0);
    } else {
      NotInContext(p, s, f, i, g, r);
      LostBy(p, s, f, i, t, g, r, 0, 0, 0, 1);
    }
  }

  lemma CoveredMeans(p: Program, s: Solution, f: Name, r: Reg)
    ensures Covered(p, s, f, r) <==> f in p.functions && r in Locals(p, s, f) && r !in LocalUnits(p, s, f)
  {
  }

  lemma CarriedIsVolatile(p: Program, s: Solution, g: Name, r: Reg)
    ensures Carried(p, s, g, r) ==> Volatile(r) && r in p.localised
  {
  }

  lemma NotInLocal(p: Program, s: Solution, f: Name, i: nat, g: Name, r: Reg)
    requires CallOf(p, s, f, i, g) && p.functions[f].nodes[i].kind == CALL && f in s.livebefore
    requires !InLocal(p, s, f, i, r)
    ensures !Volatile(r) ==> r !in LocalUnits(p, s, f)
    ensures Volatile(r) && Untouched(p, s, g, r) && r in LiveAt(s, f, i) ==>
      r !in LocalUnits(p, s, f) && !InContext(p, s, f, i, r)
  {
    hide LocalUnits, InContext, Untouched;
  }

  lemma NotInContext(p: Program, s: Solution, f: Name, i: nat, g: Name, r: Reg)
    requires CallOf(p, s, f, i, g) && p.functions[f].nodes[i].kind == CALL && f in s.livebefore
    requires !InContext(p, s, f, i, r)
    ensures r !in CalleeRet(p, s.ret, g)
    ensures Carried(p, s, g, r) ==> r in LocalUnits(p, s, f) && r !in Emit(p, s, f, i).before
  {
    hide LocalUnits, Carried;
    DirectCall(p, s, f, i, g);
  }

  /** Looked for in a context that is not right about it, r is lost. */
  lemma LostInContext(p: Program, m: Meaning, s: Solution, f: Name, i: nat, t: Target, g: Name, r: Reg)
    requires Conventional(p, m, s) && Solved(p, s) && IsTransformed(p, s, f, t)
    requires f in p.functions && f in s.livebefore && i < |p.functions[f].nodes| == |t.blocks|
    requires CallOf(p, s, f, i, g) && p.functions[f].nodes[i].kind == CALL
    requires r in p.localised && !(r in Locals(p, s, f) && r !in t.blocks[i].after) && !InContext(p, s, f, i, r)
    ensures !SureToSee(p, s, f, i, t, g, r)
  {
    hide *;
    ConventionalHas(p, m, s, f);
    EmitAt(p, s, f, t, i);
    LocalsAre(p, s, f);
    NotInContext(p, s, f, i, g, r);
    VolatileOnly(r);
    if Carried(p, s, g, r) {
      CoveredMeans(p, s, f, r);
      LostBy(p, s, f, i, t, g, r, 0, 1, 0, 1);
    } else {
      LostBy(p, s, f, i, t, g, r, 0, 0, 0, 1);
    }
  }

  /** Registers, locals and contexts that are zero but for r, in a way back in which r is lost. */
  lemma LostBy(p: Program, s: Solution, f: Name, i: nat, t: Target, g: Name, r: Reg, l: Value, c: Value, a': Value,
      c': Value)
    requires f in p.functions && i < |t.blocks| && r in p.localised
    requires r in LiveAt(s, f, i) ==> (if r in t.locals then l else c) == 0 && (Covered(p, s, f, r) ==> c == 0)
    requires r in CalleeRet(p, s.ret, g) ==> a' == c'
    requires a' == 0 || (!Saveable(r) && r !in KEPT_FIELDS)
      || (r !in KEPT_FIELDS && r in CalleeClobbers(s.noreturn, s.clobbers, g))
    requires Carried(p, s, g, r) && (if r in t.blocks[i].before then l else c) == 0 ==> a' == c'
    requires Untouched(p, s, g, r) ==> a' == 0
    requires (if r in t.locals && r !in t.blocks[i].after then l else c') != a' || (Covered(p, s, f, r) && a' != c')
    ensures !SureToSee(p, s, f, i, t, g, r)
  {
    hide *;
    var none, before, ctx, after, back := map[r := 0], map[r := l], map[r := c], map[r := a'], map[r := c'];
    BitBack(p, s, f, i, t, g, r, l, c, a', c');
    SeesIs(p, s, f, t, i, r, before, after, back);
    CoveredMeans(p, s, f, r);
    assert At(View(Override(before, back, t.blocks[i].after), back, t.locals), r) ==
      if r in t.locals && r !in t.blocks[i].after then l else c' by {
      BitSeen(r, t.locals, t.blocks[i].after, l, c');
    }
    assert At(after, r) == a' && At(back, r) == c' by {
      BitIs(r, a');
      BitIs(r, c');
    }
    NotSure(p, s, f, i, t, g, r, none, before, ctx, after, back);
  }

  lemma BitIs(r: Reg, v: Value)
    ensures forall q :: At(map[r := v], q) == if q == r then v else 0
  {
  }

  lemma BitSeen(r: Reg, locals: set<Reg>, loads: set<Reg>, l: Value, c': Value)
    ensures At(View(Override(map[r := l], map[r := c'], loads), map[r := c'], locals), r) ==
      if r in locals && r !in loads then l else c'
  {
  }

  lemma NotSure(p: Program, s: Solution, f: Name, i: nat, t: Target, g: Name, r: Reg, a: File, l: File, c: File,
      a': File, c': File)
    requires i < |t.blocks| && CameBack(p, s, f, i, t, g, a, l, c, a', c') && !Sees(p, s, f, t, i, r, l, a', c')
    ensures !SureToSee(p, s, f, i, t, g, r)
  {
    hide CameBack, Sees;
  }

  lemma BitBack(p: Program, s: Solution, f: Name, i: nat, t: Target, g: Name, r: Reg, l: Value, c: Value, a': Value,
      c': Value)
    requires i < |t.blocks| && r in p.localised
    requires r in LiveAt(s, f, i) ==> (if r in t.locals then l else c) == 0 && (Covered(p, s, f, r) ==> c == 0)
    requires r in CalleeRet(p, s.ret, g) ==> a' == c'
    requires a' == 0 || (!Saveable(r) && r !in KEPT_FIELDS)
      || (r !in KEPT_FIELDS && r in CalleeClobbers(s.noreturn, s.clobbers, g))
    requires Carried(p, s, g, r) && (if r in t.blocks[i].before then l else c) == 0 ==> a' == c'
    requires Untouched(p, s, g, r) ==> a' == 0
    ensures CameBack(p, s, f, i, t, g, map[r := 0], map[r := l], map[r := c], map[r := a'], map[r := c'])
  {
    hide *;
    BitMatches(p, s, f, i, t, r, l, c);
    BitAgrees(p, s, g, r, a', c');
    BitCarries(p, s, g, r, t.blocks[i].before, l, c, a', c');
    BitKept(p, s, g, r, a');
    CameBackOf(p, s, f, i, t, g, map[r := 0], map[r := l], map[r := c], map[r := a'], map[r := c']);
  }

  lemma CameBackOf(p: Program, s: Solution, f: Name, i: nat, t: Target, g: Name, a: File, l: File, c: File, a': File,
      c': File)
    requires i < |t.blocks| && Matches(p, s, f, i, t.locals, a, l, c)
    requires Agree(c', a', CalleeRet(p, s.ret, g)) && AgreeOutside(c', a', p.localised)
    requires KeptBut(p, a, a', CalleeClobbers(s.noreturn, s.clobbers, g)) && KeptFields(a, a')
    requires Carries(p, s, g, a, Override(c, l, t.blocks[i].before), a', c') && LeavesAlone(p, s, g, a, a')
    ensures CameBack(p, s, f, i, t, g, a, l, c, a', c')
  {
    hide Matches, Agree, AgreeOutside, KeptBut, KeptFields, Carries, CalleeRet, CalleeClobbers, LeavesAlone;
  }

  lemma BitMatches(p: Program, s: Solution, f: Name, i: nat, t: Target, r: Reg, l: Value, c: Value)
    requires r in p.localised
    requires r in LiveAt(s, f, i) ==> (if r in t.locals then l else c) == 0 && (Covered(p, s, f, r) ==> c == 0)
    ensures Matches(p, s, f, i, t.locals, map[r := 0], map[r := l], map[r := c])
  {
    hide LiveAt, Covered;
  }

  lemma BitAgrees(p: Program, s: Solution, g: Name, r: Reg, a': Value, c': Value)
    requires r in p.localised && (r in CalleeRet(p, s.ret, g) ==> a' == c')
    ensures Agree(map[r := c'], map[r := a'], CalleeRet(p, s.ret, g))
      && AgreeOutside(map[r := c'], map[r := a'], p.localised)
  {
    hide CalleeRet;
  }

  lemma BitCarries(p: Program, s: Solution, g: Name, r: Reg, before: set<Reg>, l: Value, c: Value, a': Value, c': Value)
    requires Carried(p, s, g, r) && (if r in before then l else c) == 0 ==> a' == c'
    ensures Carries(p, s, g, map[r := 0], Override(map[r := c], map[r := l], before), map[r := a'], map[r := c'])
  {
    hide Carried;
  }

  lemma BitKept(p: Program, s: Solution, g: Name, r: Reg, a': Value)
    requires a' == 0 || (!Saveable(r) && r !in KEPT_FIELDS)
      || (r !in KEPT_FIELDS && r in CalleeClobbers(s.noreturn, s.clobbers, g))
    requires Untouched(p, s, g, r) ==> a' == 0
    ensures LeavesAlone(p, s, g, map[r := 0], map[r := a'])
    ensures KeptBut(p, map[r := 0], map[r := a'], CalleeClobbers(s.noreturn, s.clobbers, g))
    ensures KeptFields(map[r := 0], map[r := a'])
  {
    hide KEPT_FIELDS, Untouched, Saveable, HelpersOut, CalleeClobbers;
  }

  lemma VolatileOnly(r: Reg)
    ensures Volatile(r) || Saveable(r) ==> r !in KEPT_FIELDS
    ensures Volatile(r) ==> !Saveable(r)
  {
  }

  /** After a call that came back alike, the target again sees what is live. */
  lemma CallBackMatches(p: Program, m: Meaning, s: Solution, f: Name, i: nat, t: Target, next: nat, g: Name,
                        a: File, l: File, c: File, a': File, c': File)
    requires Conventional(p, m, s) && Solved(p, s) && AllComeBack(p, s) && IsTransformed(p, s, f, t)
    requires f in p.functions && f in s.livebefore && i < |p.functions[f].nodes| == |t.blocks|
    requires CallOf(p, s, f, i, g) && !IsDropped(p, p.functions[f].nodes[i])
    requires next in p.functions[f].nodes[i].succ && next < |t.blocks|
    requires Kill(p, s.ret, s.indirectRet, p.functions[f].nodes[i]) <= CalleeRet(p, s.ret, g)
    requires CameBack(p, s, f, i, t, g, a, l, c, a', c')
    ensures Matches(p, s, f, next, t.locals, a', Override(l, c', t.blocks[i].after), c')
  {
    hide *;
    CallKind(p, s, f, i, g);
    ConventionalHas(p, m, s, f);
    CameBackHas(p, s, f, i, t, g, a, l, c, a', c');
    EmitAt(p, s, f, t, i);
    LocalsAre(p, s, f);
    var l' := Override(l, c', t.blocks[i].after);
    forall r | r in LiveAt(s, f, next) ensures At(View(l', c', t.locals), r) == At(a', r) {
      LiveNext(p, s, f, i, next, r);
      if r !in p.localised {
        OutsideOf(c', a', p.localised, r);
        NotLocalAt(r, t.locals, l', c');
      } else {
        SideAt(p, s, f, i, g, r);
        SeenBack(p, m, s, f, i, t, next, g, r, a, l, c, a', c');
        SeesIs(p, s, f, t, i, r, l, a', c');
      }
    }
    forall r | r !in p.localised ensures At(c', r) == At(a', r) {
      OutsideOf(c', a', p.localised, r);
    }
    forall r | r in LiveAt(s, f, next) && Covered(p, s, f, r) ensures At(c', r) == At(a', r) {
      CoveredIsLocal(p, s, f, r);
      LiveNext(p, s, f, i, next, r);
      SideAt(p, s, f, i, g, r);
      SeenBack(p, m, s, f, i, t, next, g, r, a, l, c, a', c');
      SeesIs(p, s, f, t, i, r, l, a', c');
    }
    MatchesIs(p, s, f, next, t.locals, a', l', c');
  }

  lemma NotLocalAt(r: Reg, locals: set<Reg>, l: File, c: File)
    requires r !in locals
    ensures At(View(l, c, locals), r) == At(c, r)
  {
  }

  lemma ComesBackIs(p: Program, s: Solution, f: Name, i: nat, r: Reg)
    requires f in p.functions && f in s.livebefore && i < |p.functions[f].nodes|
    ensures ComesBackAt(p, s, f, i, r) <==>
      if r in Locals(p, s, f) && r !in Emit(p, s, f, i).after then InLocal(p, s, f, i, r) else InContext(p, s, f, i, r)
  {
  }

  lemma LoadedAt(p: Program, s: Solution, f: Name, i: nat, r: Reg)
    requires f in p.functions && i < |p.functions[f].nodes| && f in s.livebefore
    requires p.functions[f].nodes[i].kind in {CALL, ICALL} && !IsDropped(p, p.functions[f].nodes[i])
    requires r in LiveAfter(p, s, f, i) && r in Kill(p, s.ret, s.indirectRet, p.functions[f].nodes[i])
    requires r in LocalUnits(p, s, f)
    ensures r in Loads(p, s, f, i) * LocalUnits(p, s, f)
  {
  }

  // ------------------------------------------------------------ the theorem

  lemma CodeIsWellFormed(p: Program, s: Solution, code: Code)
    requires WellFormed(p) && IsTransformedProgram(p, s, code)
    ensures WellFormedCode(code)
  {
    hide *;
    forall f | f in code ensures WellFormedTarget(code[f]) {
      TransformedOne(p, s, code, f);
      HasEntry(p, f);
      forall i | 0 <= i < |p.functions[f].nodes|
        ensures code[f].blocks[i].node == p.functions[f].nodes[i]
          && WellFormedNode(p.functions[f].nodes, p.functions[f].nodes[i])
      {
        EmitAt(p, s, f, code[f], i);
        NodeAt(p, f, i);
      }
      EmitAt(p, s, f, code[f], 0);
      TargetIsWellFormed(p.functions[f].nodes, code[f]);
    }
    CodeOf(code);
  }

  lemma TransformedOne(p: Program, s: Solution, code: Code, f: Name)
    requires IsTransformedProgram(p, s, code) && f in code
    ensures f in p.functions && f in s.livebefore && IsTransformed(p, s, f, code[f])
  {
  }

  lemma TargetIsWellFormed(nodes: seq<Node>, t: Target)
    requires |nodes| == |t.blocks| > 0
    requires forall i | 0 <= i < |nodes| :: t.blocks[i].node == nodes[i] && WellFormedNode(nodes, nodes[i])
    ensures WellFormedTarget(t)
  {
  }

  lemma CodeOf(code: Code)
    requires forall f | f in code :: WellFormedTarget(code[f])
    ensures WellFormedCode(code)
  {
  }

  /** What the simulation takes as given: a solved program that keeps the conventions and
      meets the condition, and its output. */
  ghost predicate Prepared(p: Program, m: Meaning, s: Solution, code: Code) {
    && Conventional(p, m, s) && Solved(p, s) && AllComeBack(p, s)
    && IsTransformedProgram(p, s, code) && WellFormedCode(code)
  }

  lemma PreparedHas(p: Program, m: Meaning, s: Solution, code: Code, f: Name)
    requires Prepared(p, m, s, code)
    ensures Conventional(p, m, s) && Solved(p, s) && AllComeBack(p, s) && WellFormed(p) && WellFormedCode(code)
    ensures IsNoreturn(p, s.noreturn) && IsClobbers(p, s.noreturn, s.clobbers) && HelpersReturn(p, s)
    ensures f in p.functions <==> f in code
    ensures f in p.functions ==> f in s.livebefore && IsTransformed(p, s, f, code[f])
  {
    SolvedHas(p, s);
    hide IsNoreturn, IsLeastClobbers, IsClobbers, IsTransformed, ComesBack;
  }

  /** The two outcomes of a body: nothing tells them apart, and the context holds what f
      returns through it. */
  ghost predicate SameEnd(p: Program, back: set<Reg>, o: Outcome, o': Outcome) {
    SameShow(o, o') && (o.Returned? ==> Agree(o'.file, o.file, back) && AgreeOutside(o'.file, o.file, p.localised))
  }

  /** Meaning preservation inside a function. */
  lemma {:induction false} Simulates(p: Program, m: Meaning, s: Solution, code: Code, f: Name, i: nat,
                                     a: File, l: File, c: File, w: World, fuel: nat)
    requires Prepared(p, m, s, code) && WellFormed(p) && WellFormedCode(code)
    requires f in p.functions && f in code && i < |p.functions[f].nodes| == |code[f].blocks|
    requires Matches(p, s, f, i, code[f].locals, a, l, c)
    ensures var o, o' := Run(p, m, s.livebefore, f, i, a, w, fuel),
      TargetRun(p, code, m, s.livebefore, f, i, l, c, w, fuel);
      SameEnd(p, Lookup(s.ret, f), o, o') && EndCarries(p, s, f, a, c, o, o')
    decreases fuel, 0
  {
    hide *;
    var watch := s.livebefore;
    var t := code[f];
    PreparedHas(p, m, s, code, f);
    if fuel == 0 {
      NoFuel(p, m, watch, f, i, a, w);
      NoTargetFuel(p, code, m, watch, f, i, l, c, w);
      SameEndNone(p, s, f, Lookup(s.ret, f), a, c);
      return;
    }
    NodeAt(p, f, i);
    EmitAt(p, s, f, t, i);
    HasSucc(p, f, i);
    StepMatches(p, m, s, f, i, t, a, l, c, w);
    StepNext(p, m, f, i, a, w);
    BlockAt(code, f, i);
    TargetStepNext(m, f, i, t, l, c, w);
    RunUnfolds(p, m, watch, f, i, a, w, fuel);
    TargetRunUnfolds(p, code, m, watch, f, i, l, c, w, fuel);
    HereMatches(p, s, f, i, t.locals, a, l, c, w);
    CalleeSets(p, m, s, f, i, a, w);
    StepsMatchIs(p, s, f, t, t.blocks[i], a, l, c, StepAt(p, m, f, i, a, w), TargetStepAt(m, f, i, t, l, c, w));
    StepCarries(p, m, s, f, i, t, a, l, c, w);
    var here, back := Here(watch, f, i, a, w), Lookup(s.ret, f);
    match StepAt(p, m, f, i, a, w)
    case Ends(o) =>
      PrependEnd(p, s, f, back, a, c, here, o, TargetStepAt(m, f, i, t, l, c, w).outcome);
    case Goes(next, a', w') =>
      var ts := TargetStepAt(m, f, i, t, l, c, w);
      Simulates(p, m, s, code, f, next, a', ts.locals, ts.context, w', fuel - 1);
      var o, o' := Run(p, m, watch, f, next, a', w', fuel - 1),
        TargetRun(p, code, m, watch, f, next, ts.locals, ts.context, w', fuel - 1);
      CarriesOn(p, s, f, a, c, a', ts.context, o, o');
      PrependEnd(p, s, f, back, a, c, here, o, o');
    case Calls(g, shown, w', next) =>
      var c1 := Override(c, l, t.blocks[i].before);
      var events := here + [Enter(g, shown)];
      CallSimulates(p, m, s, code, g, a, c1, w', fuel - 1);
      var o, o' := Invoke(p, m, watch, g, a, w', fuel - 1), TargetInvoke(p, code, m, watch, g, c1, w', fuel - 1);
      SameEndIs(p, CalleeRet(p, s.ret, g), o, o');
      if o.Returned? {
        NoreturnNeverReturns(p, m, watch, s, g, a, w', fuel - 1);
        StepCallOf(p, m, s, f, i, a, w);
        CallKeeps(p, m, watch, s, g, a, w', fuel - 1);
        LeavesAloneIs(p, m, s, g, a, w', fuel - 1);
        CameBackIs(p, m, s, f, i, t, g, a, l, c, o, o');
        CallBackMatches(p, m, s, f, i, t, next, g, a, l, c, o.file, o'.file);
        var l' := Override(l, o'.file, t.blocks[i].after);
        Simulates(p, m, s, code, f, next, o.file, l', o'.file, o.world, fuel - 1);
        var e, e' := Run(p, m, watch, f, next, o.file, o.world, fuel - 1),
          TargetRun(p, code, m, watch, f, next, l', o'.file, o.world, fuel - 1);
        CallCarries(p, m, s, f, i, t, g, a, l, c, w, o, o');
        CarriesOn(p, s, f, a, c, o.file, o'.file, e, e');
        PrependEnd(p, s, f, back, a, c, events + o.trace, e, e');
      } else {
        NotBack(p, s, f, a, c, o, o');
        OtherEnd(p, CalleeRet(p, s.ret, g), back, o, o');
        PrependEnd(p, s, f, back, a, c, events, o, o');
      }
  }

  /** Meaning preservation at a call: from a context that holds what the callee may read,
      the rewritten callee takes the same path, makes the same calls, shows host code the
      same registers, leaves the same world, and brings back every register it returns. */
  lemma {:induction false} CallSimulates(p: Program, m: Meaning, s: Solution, code: Code, g: Name, a: File, c: File,
      w: World, fuel: nat)
    requires Prepared(p, m, s, code) && WellFormed(p) && WellFormedCode(code) && !Dropped(p, g)
    requires Agree(c, a, CalleeLivein(p, s.livein, g)) && AgreeOutside(c, a, p.localised)
    ensures var o, o' := Invoke(p, m, s.livebefore, g, a, w, fuel),
      TargetInvoke(p, code, m, s.livebefore, g, c, w, fuel);
      SameEnd(p, CalleeRet(p, s.ret, g), o, o') && EndCarries(p, s, g, a, c, o, o')
    decreases fuel, 1
  {
    hide *;
    var watch := s.livebefore;
    PreparedHas(p, m, s, code, g);
    InvokeUnfolds(p, m, watch, g, a, w, fuel);
    TargetInvokeUnfolds(p, code, m, watch, g, c, w, fuel);
    SameEndNone(p, s, g, CalleeRet(p, s.ret, g), a, c);
    if g !in p.functions {
      HostMatches(p, m, s, g, a, c, w);
    } else if fuel > 0 {
      var t := code[g];
      EntryMatches(p, s, g, t, a, c);
      EmitAt(p, s, g, t, 0);
      Simulates(p, m, s, code, g, 0, a, Restrict(c, t.loaded), c, w, fuel - 1);
      var o, o' := Run(p, m, watch, g, 0, a, w, fuel - 1),
        TargetRun(p, code, m, watch, g, 0, Restrict(c, t.loaded), c, w, fuel - 1);
      SameEndIs(p, Lookup(s.ret, g), o, o');
      if o.Returned? {
        RetNotRestored(p, m, s, g);
        RestoreMatches(p, s, g, a, c, o, o');
      } else {
        NotBack(p, s, g, a, c, o, o');
        OtherEnd(p, Lookup(s.ret, g), CalleeRet(p, s.ret, g), o, o');
      }
    }
  }

  // ------------------------------------------------------------ what is carried

  ghost predicate EndCarries(p: Program, s: Solution, f: Name, a: File, c: File, o: Outcome, o': Outcome) {
    o.Returned? && o'.Returned? ==> Carries(p, s, f, a, c, o.file, o'.file)
  }

  lemma CarriesOn(p: Program, s: Solution, f: Name, a: File, c: File, a': File, c': File, o: Outcome, o': Outcome)
    requires Carries(p, s, f, a, c, a', c') && EndCarries(p, s, f, a', c', o, o')
    ensures EndCarries(p, s, f, a, c, o, o')
  {
    hide Carried;
  }

  lemma NotBack(p: Program, s: Solution, f: Name, a: File, c: File, o: Outcome, o': Outcome)
    requires !o.Returned?
    ensures EndCarries(p, s, f, a, c, o, o')
  {
  }

  /** A function is quiet about what it carries. */
  lemma CarriedQuietly(p: Program, s: Solution, f: Name, i: nat, r: Reg)
    requires f in p.functions && i < |p.functions[f].nodes| && Carried(p, s, f, r)
    ensures f in s.livebefore && (r in Locals(p, s, f) ==> QuietAt(p, s, f, i, r))
  {
    hide Locals, QuietAt, RunsWithin;
    var reach :| f in reach && AllQuiet(p, s, reach, r);
    assert Quiet(p, s, f, r);
  }

  /** What a function carries, those it calls carry. */
  lemma CarriedInCallee(p: Program, m: Meaning, s: Solution, f: Name, i: nat, a: File, w: World, r: Reg)
    requires f in p.functions && i < |p.functions[f].nodes| && Carried(p, s, f, r)
    requires WellFormedNode(p.functions[f].nodes, p.functions[f].nodes[i])
    ensures match StepAt(p, m, f, i, a, w)
      case Calls(g, _, _, _) => g !in s.noreturn ==> Carried(p, s, g, r)
      case _ => true
  {
    hide Quiet, IsDropped, WellFormedNode, Restrict;
    var n := p.functions[f].nodes[i];
    var reach :| f in reach && AllQuiet(p, s, reach, r);
    assert n in p.functions[f].nodes && StaysWithin(p, s, reach, n);
  }

  /** What is stored is live. */
  lemma StoresLive(p: Program, s: Solution, f: Name, i: nat)
    requires Solved(p, s) && f in p.functions && i < |p.functions[f].nodes|
    requires WellFormedNode(p.functions[f].nodes, p.functions[f].nodes[i])
    ensures Stores(p, s, f, p.functions[f].nodes[i]) <= LiveAt(s, f, i)
  {
    hide Solved, LiveAt;
    LiveFacts(p, s, f, i);
  }

  /** The stores before a statement keep the context right about what is carried. */
  lemma StoresCarry(p: Program, s: Solution, f: Name, i: nat, t: Target, a: File, l: File, c: File, r: Reg)
    requires WellFormed(p) && Solved(p, s) && IsTransformed(p, s, f, t)
    requires f in p.functions && f in s.livebefore && i < |p.functions[f].nodes| == |t.blocks|
    requires WellFormedNode(p.functions[f].nodes, p.functions[f].nodes[i])
    requires Matches(p, s, f, i, t.locals, a, l, c) && Carried(p, s, f, r) && At(c, r) == At(a, r)
    ensures At(Override(c, l, t.blocks[i].before), r) == At(a, r)
    ensures p.functions[f].nodes[i].kind == PLAIN && r in t.locals ==> r !in p.functions[f].nodes[i].writes
  {
    hide *;
    EmitAt(p, s, f, t, i);
    StoresLive(p, s, f, i);
    CarriedQuietly(p, s, f, i, r);
    MatchesView(p, s, f, i, t.locals, a, l, c);
    if r in t.locals {
      QuietIs(p, s, f, i, r);
      if r in t.blocks[i].before {
        AgreeAt(View(l, c, t.locals), a, LiveAt(s, f, i), r);
        LocalAt(r, t.locals, l, c);
      }
    }
    assert At(Override(c, l, t.blocks[i].before), r) == if r in t.blocks[i].before then At(l, r) else At(c, r);
  }

  lemma QuietIs(p: Program, s: Solution, f: Name, i: nat, r: Reg)
    requires f in p.functions && f in s.livebefore && i < |p.functions[f].nodes| && QuietAt(p, s, f, i, r)
    ensures p.functions[f].nodes[i].kind == PLAIN ==> r !in p.functions[f].nodes[i].writes
    ensures r in Emit(p, s, f, i).before ==> r in Stores(p, s, f, p.functions[f].nodes[i])
  {
  }

  lemma LocalAt(r: Reg, locals: set<Reg>, l: File, c: File)
    requires r in locals
    ensures At(View(l, c, locals), r) == At(l, r)
  {
  }

  /** A statement that does not call carries. */
  lemma StepCarries(p: Program, m: Meaning, s: Solution, f: Name, i: nat, t: Target, a: File, l: File, c: File,
      w: World)
    requires Conventional(p, m, s) && Solved(p, s) && IsTransformed(p, s, f, t)
    requires f in p.functions && f in s.livebefore && i < |p.functions[f].nodes| == |t.blocks|
    requires WellFormedNode(p.functions[f].nodes, p.functions[f].nodes[i])
      && t.blocks[i].node == p.functions[f].nodes[i]
    requires p.functions[f].nodes[i].kind != EXIT ==> |p.functions[f].nodes[i].succ| > 0
    requires Matches(p, s, f, i, t.locals, a, l, c)
    ensures match (StepAt(p, m, f, i, a, w), TargetStepAt(m, f, i, t, l, c, w))
      case (Ends(o), TEnds(o')) => EndCarries(p, s, f, a, c, o, o')
      case (Goes(_, a', _), TGoes(_, _, c', _)) => Carries(p, s, f, a, c, a', c')
      case _ => true
  {
    hide *;
    ConventionalHas(p, m, s, f);
    EmitAt(p, s, f, t, i);
    var n := p.functions[f].nodes[i];
    AllStoresCarry(p, s, f, i, t, a, l, c);
    if n.kind == PLAIN {
      PlainSees(p, s, f, i, t, a, l, c);
      PlainSteps(p, m, f, i, t, a, l, c, w);
      PlainCarries(p, m, s, f, i, t, a, l, c, w);
    } else if n.kind == EXIT {
      ExitCarries(p, m, s, f, i, t, a, l, c, w);
    } else {
      StillCarries(p, m, s, f, i, t, a, l, c, w);
    }
  }

  lemma AllStoresCarry(p: Program, s: Solution, f: Name, i: nat, t: Target, a: File, l: File, c: File)
    requires WellFormed(p) && Solved(p, s) && IsTransformed(p, s, f, t)
    requires f in p.functions && f in s.livebefore && i < |p.functions[f].nodes| == |t.blocks|
    requires WellFormedNode(p.functions[f].nodes, p.functions[f].nodes[i])
      && t.blocks[i].node == p.functions[f].nodes[i]
    requires Matches(p, s, f, i, t.locals, a, l, c)
    ensures StoresCarried(p, s, f, i, t, a, l, c)
  {
    hide WellFormed, Solved, IsTransformed, WellFormedNode, Matches, Carried, Override;
    forall r | Carried(p, s, f, r) && At(c, r) == At(a, r)
      ensures At(Override(c, l, t.blocks[i].before), r) == At(a, r)
      ensures t.blocks[i].node.kind == PLAIN && r in t.locals ==> r !in t.blocks[i].node.writes
    {
      StoresCarry(p, s, f, i, t, a, l, c, r);
    }
  }

  ghost predicate StoresCarried(p: Program, s: Solution, f: Name, i: nat, t: Target, a: File, l: File, c: File)
    requires i < |t.blocks|
  {
    var n := t.blocks[i].node;
    forall r | Carried(p, s, f, r) && At(c, r) == At(a, r) ::
      At(Override(c, l, t.blocks[i].before), r) == At(a, r) && (n.kind == PLAIN && r in t.locals ==> r !in n.writes)
  }

  lemma PlainCarries(p: Program, m: Meaning, s: Solution, f: Name, i: nat, t: Target, a: File, l: File, c: File,
      w: World)
    requires f in p.functions && i < |p.functions[f].nodes| == |t.blocks|
    requires t.blocks[i].node == p.functions[f].nodes[i] && |t.blocks[i].node.succ| > 0
      && t.blocks[i].node.kind == PLAIN
    requires StoresCarried(p, s, f, i, t, a, l, c)
    requires var n := p.functions[f].nodes[i];
      Restrict(View(l, Override(c, l, t.blocks[i].before), t.locals - (n.hostReads + n.hostWrites)), n.uses)
        == Restrict(a, n.uses)
    ensures var n := p.functions[f].nodes[i];
      var e := m.plain(f, i, Restrict(a, n.uses), w);
      PlainStep(m, f, i, t, t.blocks[i], l, c, w).TGoes? &&
      Carries(p, s, f, a, c, Override(a, e.registers, n.writes), PlainStep(m, f, i, t, t.blocks[i], l, c, w).context)
  {
    hide Carried, View, Restrict;
  }

  lemma ExitCarries(p: Program, m: Meaning, s: Solution, f: Name, i: nat, t: Target, a: File, l: File, c: File,
      w: World)
    requires f in p.functions && i < |p.functions[f].nodes| == |t.blocks|
    requires WellFormedNode(p.functions[f].nodes, p.functions[f].nodes[i])
    requires t.blocks[i].node == p.functions[f].nodes[i] && StoresCarried(p, s, f, i, t, a, l, c)
    requires p.functions[f].nodes[i].kind == EXIT
    ensures match (StepAt(p, m, f, i, a, w), TargetStepAt(m, f, i, t, l, c, w))
      case (Ends(o), TEnds(o')) => EndCarries(p, s, f, a, c, o, o')
      case _ => false
  {
    hide Carried, Override;
  }

  lemma StillCarries(p: Program, m: Meaning, s: Solution, f: Name, i: nat, t: Target, a: File, l: File, c: File,
      w: World)
    requires f in p.functions && i < |p.functions[f].nodes| == |t.blocks|
    requires WellFormedNode(p.functions[f].nodes, p.functions[f].nodes[i])
    requires t.blocks[i].node == p.functions[f].nodes[i] && |t.blocks[i].node.succ| > 0
    requires p.functions[f].nodes[i].kind !in {PLAIN, EXIT}
    ensures match (StepAt(p, m, f, i, a, w), TargetStepAt(m, f, i, t, l, c, w))
      case (Goes(_, a', _), TGoes(_, _, c', _)) => Carries(p, s, f, a, c, a', c')
      case (Ends(_), TEnds(_)) => false
      case _ => true
  {
    hide Carried, Override, View, Restrict, IsDropped;
  }

  /** After a call that came back, what the caller carries is as the callee carried it. */
  lemma CallCarries(p: Program, m: Meaning, s: Solution, f: Name, i: nat, t: Target, g: Name, a: File, l: File, c: File,
      w: World, o: Outcome, o': Outcome)
    requires WellFormed(p) && Solved(p, s) && IsTransformed(p, s, f, t)
    requires f in p.functions && f in s.livebefore && i < |p.functions[f].nodes| == |t.blocks|
    requires WellFormedNode(p.functions[f].nodes, p.functions[f].nodes[i])
    requires StepAt(p, m, f, i, a, w).Calls? && StepAt(p, m, f, i, a, w).callee == g && g !in s.noreturn
    requires Matches(p, s, f, i, t.locals, a, l, c) && o.Returned? && o'.Returned?
    requires EndCarries(p, s, g, a, Override(c, l, t.blocks[i].before), o, o')
    ensures Carries(p, s, f, a, c, o.file, o'.file)
  {
    hide *;
    EndCarriesIs(p, s, g, a, Override(c, l, t.blocks[i].before), o, o');
    forall r | Carried(p, s, f, r) && At(c, r) == At(a, r) ensures At(o'.file, r) == At(o.file, r) {
      StoresCarry(p, s, f, i, t, a, l, c, r);
      CarriedInCallee(p, m, s, f, i, a, w, r);
      CarriedAt(p, s, g, r, a, Override(c, l, t.blocks[i].before), o.file, o'.file);
    }
    CarriesIs(p, s, f, a, c, o.file, o'.file);
  }

  lemma EndCarriesIs(p: Program, s: Solution, f: Name, a: File, c: File, o: Outcome, o': Outcome)
    requires o.Returned? && o'.Returned?
    ensures EndCarries(p, s, f, a, c, o, o') <==> Carries(p, s, f, a, c, o.file, o'.file)
  {
  }

  lemma CarriesIs(p: Program, s: Solution, f: Name, a: File, c: File, a': File, c': File)
    requires forall r | Carried(p, s, f, r) && At(c, r) == At(a, r) :: At(c', r) == At(a', r)
    ensures Carries(p, s, f, a, c, a', c')
  {
  }

  lemma LeavesAloneIs(p: Program, m: Meaning, s: Solution, g: Name, a: File, w: World, fuel: nat)
    requires WellFormed(p) && IsNoreturn(p, s.noreturn) && HelpersReturn(p, s)
    ensures var o := Invoke(p, m, s.livebefore, g, a, w, fuel);
      o.Returned? ==> LeavesAlone(p, s, g, a, o.file)
  {
    hide WellFormed, IsNoreturn, HelpersReturn, Invoke, Untouched;
    var o := Invoke(p, m, s.livebefore, g, a, w, fuel);
    forall r | Untouched(p, s, g, r) ensures o.Returned? ==> At(o.file, r) == At(a, r) {
      UntouchedKept(p, m, s.livebefore, s, r, g, a, w, fuel);
    }
  }

  lemma CameBackIs(p: Program, m: Meaning, s: Solution, f: Name, i: nat, t: Target, g: Name, a: File, l: File, c: File,
      o: Outcome, o': Outcome)
    requires i < |t.blocks| && o.Returned? && o'.Returned?
    requires Matches(p, s, f, i, t.locals, a, l, c)
    requires Agree(o'.file, o.file, CalleeRet(p, s.ret, g)) && AgreeOutside(o'.file, o.file, p.localised)
    requires KeptBut(p, a, o.file, CalleeClobbers(s.noreturn, s.clobbers, g)) && KeptFields(a, o.file)
    requires EndCarries(p, s, g, a, Override(c, l, t.blocks[i].before), o, o') && LeavesAlone(p, s, g, a, o.file)
    ensures CameBack(p, s, f, i, t, g, a, l, c, o.file, o'.file)
  {
    hide *;
    EndCarriesIs(p, s, g, a, Override(c, l, t.blocks[i].before), o, o');
    CameBackOf(p, s, f, i, t, g, a, l, c, o.file, o'.file);
  }

  lemma NoTargetFuel(p: Program, code: Code, m: Meaning, watch: Watch, f: Name, i: nat, l: File, c: File, w: World)
    requires WellFormedCode(code) && f in code && i < |code[f].blocks|
    ensures TargetRun(p, code, m, watch, f, i, l, c, w, 0) == Exhausted([])
  {
  }

  lemma SameEndNone(p: Program, s: Solution, f: Name, back: set<Reg>, a: File, c: File)
    ensures SameEnd(p, back, Exhausted([]), Exhausted([])) && EndCarries(p, s, f, a, c, Exhausted([]), Exhausted([]))
  {
  }

  lemma HasSucc(p: Program, f: Name, i: nat)
    requires f in p.functions && i < |p.functions[f].nodes|
    requires WellFormedNode(p.functions[f].nodes, p.functions[f].nodes[i])
    ensures p.functions[f].nodes[i].kind != EXIT ==> |p.functions[f].nodes[i].succ| > 0
  {
  }

  lemma HereMatches(p: Program, s: Solution, f: Name, i: nat, locals: set<Reg>, a: File, l: File, c: File, w: World)
    requires Matches(p, s, f, i, locals, a, l, c)
    ensures Here(s.livebefore, f, i, a, w) == TargetHere(s.livebefore, f, i, View(l, c, locals), w)
  {
    hide View;
    AgreeRestrict(View(l, c, locals), a, LiveAt(s, f, i));
  }

  lemma StepsMatchIs(p: Program, s: Solution, f: Name, t: Target, b: Block, a: File, l: File, c: File, step: Step,
      target: TargetStep)
    requires StepsMatch(p, s, f, t, b, a, l, c, step, target)
    ensures step.Ends? ==> target.TEnds? && SameEnd(p, Lookup(s.ret, f), step.outcome, target.outcome)
    ensures step.Goes? ==>
      && target.TGoes? && target.next == step.next && target.world == step.world && step.next < |t.blocks|
      && Matches(p, s, f, step.next, t.locals, step.file, target.locals, target.context)
    ensures step.Calls? ==>
      && target == TCalls(step.callee, step.shown, Override(c, l, b.before), step.world, step.next, b.after)
      && step.next < |t.blocks|
      && Agree(target.context, a, CalleeLivein(p, s.livein, step.callee))
        && AgreeOutside(target.context, a, p.localised)
  {
    hide Matches, Override, CalleeLivein;
  }

  lemma PrependEnd(p: Program, s: Solution, f: Name, back: set<Reg>, a: File, c: File, events: seq<Event>, o: Outcome,
      o': Outcome)
    requires SameEnd(p, back, o, o') && EndCarries(p, s, f, a, c, o, o')
    ensures SameEnd(p, back, Prepend(events, o), Prepend(events, o'))
    ensures EndCarries(p, s, f, a, c, Prepend(events, o), Prepend(events, o'))
  {
    hide Carries;
  }

  lemma SameEndIs(p: Program, back: set<Reg>, o: Outcome, o': Outcome)
    requires SameEnd(p, back, o, o')
    ensures o.trace == o'.trace && (o.Returned? <==> o'.Returned?)
    ensures o.Returned? ==>
      o.world == o'.world && Agree(o'.file, o.file, back) && AgreeOutside(o'.file, o.file, p.localised)
    ensures SameShow(o, o')
    ensures !o.Returned? ==> forall other :: SameEnd(p, other, o, o')
  {
  }

  lemma OtherEnd(p: Program, back: set<Reg>, other: set<Reg>, o: Outcome, o': Outcome)
    requires SameEnd(p, back, o, o') && !o.Returned?
    ensures SameEnd(p, other, o, o')
  {
  }

  lemma StepCallOf(p: Program, m: Meaning, s: Solution, f: Name, i: nat, a: File, w: World)
    requires Conventional(p, m, s) && f in p.functions && i < |p.functions[f].nodes|
    requires WellFormedNode(p.functions[f].nodes, p.functions[f].nodes[i])
    ensures match StepAt(p, m, f, i, a, w)
      case Calls(g, _, _, next) => next in p.functions[f].nodes[i].succ && !IsDropped(p, p.functions[f].nodes[i])
        && (HelpersOut(p) ==> !IsSaveRestore(g)) && (g !in s.noreturn ==> CallOf(p, s, f, i, g))
      case _ => true
  {
    hide WellFormed, WritesKnown;
    var n := p.functions[f].nodes[i];
    StepNext(p, m, f, i, a, w);
    if n.kind in {CALL, ICALL} && !IsDropped(p, n) {
      assert n in p.functions[f].nodes;
      assert n.kind == ICALL ==> IndirectTarget(p, s, m.target(f, i, Restrict(a, n.uses), w));
    }
  }

  /** A fresh set of locals, loaded or zero, matches the caller's registers. */
  lemma EntryMatches(p: Program, s: Solution, g: Name, t: Target, a: File, c: File)
    requires WellFormed(p) && Solved(p, s) && g in p.functions && !Dropped(p, g) && IsTransformed(p, s, g, t)
    requires Agree(c, a, CalleeLivein(p, s.livein, g)) && AgreeOutside(c, a, p.localised)
    ensures Matches(p, s, g, 0, t.locals, a, Restrict(c, t.loaded), c)
  {
    hide WellFormed, Solved, Locals, LocalUnits, LiveAt, Emit, Covered;
    LocalsAre(p, s, g);
    forall r | r in LiveAt(s, g, 0) ensures At(View(Restrict(c, t.loaded), c, t.locals), r) == At(a, r) {
      EntryFacts(p, s, g, r);
    }
    forall r | r in LiveAt(s, g, 0) && Covered(p, s, g, r) ensures At(c, r) == At(a, r) {
      EntryFacts(p, s, g, r);
    }
  }

  lemma RestoreMatches(p: Program, s: Solution, g: Name, a: File, c: File, o: Outcome, o': Outcome)
    requires WellFormed(p)
    requires o.Returned? && o'.Returned? && SameEnd(p, Lookup(s.ret, g), o, o') && Lookup(s.ret, g) !! Restored(p, g)
    requires AgreeOutside(c, a, p.localised) && EndCarries(p, s, g, a, c, o, o')
    ensures var e, e' := o.(file := Override(o.file, a, Restored(p, g))),
      o'.(file := Override(o'.file, c, Restored(p, g) - p.localised));
      SameEnd(p, CalleeRet(p, s.ret, g), e, e') && EndCarries(p, s, g, a, c, e, e')
  {
    hide Restored, Dropped, Carried, WellFormed;
    forall r | Carried(p, s, g, r) ensures r !in Restored(p, g) && r in p.localised {
      CarriedNotRestored(p, s, g, r);
    }
  }

  lemma CarriedNotRestored(p: Program, s: Solution, g: Name, r: Reg)
    requires WellFormed(p) && Carried(p, s, g, r)
    ensures r !in Restored(p, g) && r in p.localised
  {
    hide AllQuiet, Selected, WellFormedNodes;
  }

  lemma HostMatches(p: Program, m: Meaning, s: Solution, g: Name, a: File, c: File, w: World)
    requires Solved(p, s) && g !in p.functions && !Dropped(p, g)
    requires Agree(c, a, CalleeLivein(p, s.livein, g)) && AgreeOutside(c, a, p.localised)
    ensures SameEnd(p, CalleeRet(p, s.ret, g), HostCall(p, m, g, a, w), HostCall(p, m, g, c, w))
    ensures EndCarries(p, s, g, a, c, HostCall(p, m, g, a, w), HostCall(p, m, g, c, w))
  {
    hide Solved, HostCall, CalleeLivein, CalleeRet, Carried;
    HostAgrees(p, m, s, g, a, c, w);
    var o, o' := HostCall(p, m, g, a, w), HostCall(p, m, g, c, w);
    if o.Returned? {
      TracedOutside(a, c, o.file, o'.file, p.localised);
    }
  }

  /** What the conversion of a program gives: what solve returns, and the code made with it. */
  ghost predicate Converted(p: Program, targets: seq<Name>, abiIndirect: bool, s: Solution, code: Code) {
    SolvesTo(p, targets, abiIndirect, s) && IsTransformedProgram(p, s, code) && WellFormedCode(code)
  }

  /** The conversion of a whole program, given up when the analysis runs out of budget.
      A run of any converted function, on any host and from any context that holds what
      the function may read, cannot be told from the source's. */
  method Convert(p: Program, order: seq<Name>, targets: seq<Name>, abiIndirect: bool, budget: nat)
      returns (solved: bool, s: Solution, code: Code)
    requires WellFormed(p) && Names(order) == p.functions.Keys
    ensures solved ==> Converted(p, targets, abiIndirect, s, code)
    ensures solved ==> forall m, g, a, c, w, fuel: nat |
      Conventional(p, m, s) && AllComeBack(p, s) && !Dropped(p, g)
        && Agree(c, a, CalleeLivein(p, s.livein, g)) && AgreeOutside(c, a, p.localised) ::
      SameEnd(p, CalleeRet(p, s.ret, g), Invoke(p, m, s.livebefore, g, a, w, fuel),
        TargetInvoke(p, code, m, s.livebefore, g, c, w, fuel))
  {
    hide *;
    var analysis := new Analysis(p, order, targets, abiIndirect);
    StartsOrdered(analysis);
    solved := analysis.Solve(budget);
    s := analysis.State();
    code := map[];
    if solved {
      SolvedSets(p, targets, abiIndirect, s);
      code := TransformProgram(p, s, order);
      CodeIsWellFormed(p, s, code);
      ConvertedIs(p, targets, abiIndirect, s, code);
      forall m, g, a, c, w, fuel: nat |
        Conventional(p, m, s) && AllComeBack(p, s) && !Dropped(p, g)
          && Agree(c, a, CalleeLivein(p, s.livein, g)) && AgreeOutside(c, a, p.localised)
        ensures SameEnd(p, CalleeRet(p, s.ret, g), Invoke(p, m, s.livebefore, g, a, w, fuel),
          TargetInvoke(p, code, m, s.livebefore, g, c, w, fuel))
      {
        PreparedIs(p, m, s, code);
        CallSimulates(p, m, s, code, g, a, c, w, fuel);
      }
    }
  }

  lemma StartsOrdered(analysis: Analysis)
    requires WellFormed(analysis.p) && Names(analysis.order) == analysis.p.functions.Keys
    ensures analysis.Ordered()
  {
  }

  lemma SolvedSets(p: Program, targets: seq<Name>, abiIndirect: bool, s: Solution)
    requires SolvesTo(p, targets, abiIndirect, s)
    ensures Solved(p, s) && s.livebefore.Keys == p.functions.Keys
  {
  }

  lemma ConvertedIs(p: Program, targets: seq<Name>, abiIndirect: bool, s: Solution, code: Code)
    requires SolvesTo(p, targets, abiIndirect, s) && IsTransformedProgram(p, s, code) && WellFormedCode(code)
    ensures Converted(p, targets, abiIndirect, s, code)
  {
  }

  lemma PreparedIs(p: Program, m: Meaning, s: Solution, code: Code)
    requires Conventional(p, m, s) && Solved(p, s) && AllComeBack(p, s)
    requires IsTransformedProgram(p, s, code) && WellFormedCode(code)
    ensures Prepared(p, m, s, code)
  {
  }
}
