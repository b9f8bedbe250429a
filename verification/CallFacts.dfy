/** The call-graph facts against runs: a function found never to return never does, and
    a returning call leaves every nonvolatile register outside its clobbers as it was. */
module CallFacts {
  import opened Registers
  import opened Programs
  import opened Liveness
  import opened CallGraph
  import opened Analysis
  import opened Machine

  /** What the pass takes for granted about the generated program and its indirect calls. */
  ghost predicate Conventional(p: Program, m: Meaning, s: Solution) {
    && WellFormed(p)
    && (forall f | f in p.functions :: WritesKnown(p, m, f))
    && HelpersReturn(p, s)
    && forall f, i, operands, w :: IndirectTarget(p, s, m.target(f, i, operands, w))
  }

  /** written_and_saved found what the function writes; or it switches to another frame,
      so that nothing was counted, and does not come back to its caller. */
  ghost predicate WritesKnown(p: Program, m: Meaning, f: Name)
    requires WellFormed(p) && f in p.functions
  {
    var body := p.functions[f];
    || WritesFound(body.nodes, body.written)
    || (SwitchesFrame(body.nodes) && body.written == {} && NeverBack(p, m, f))
  }

  ghost predicate NeverBack(p: Program, m: Meaning, f: Name)
    requires WellFormed(p)
  {
    forall watch, c, w, fuel: nat :: !Invoke(p, m, watch, f, c, w, fuel).Returned?
  }

  /** A removed call of a save or restore helper would have come back. */
  ghost predicate HelpersReturn(p: Program, s: Solution) {
    forall name | name in s.noreturn :: !Dropped(p, name)
  }

  /** An indirect call reaches a function of the standard convention. */
  predicate IndirectTarget(p: Program, s: Solution, g: Name) {
    && !IsSaveRestore(g)
    && CalleeLivein(p, s.livein, g) <= s.indirectLivein
    && s.indirectRet <= CalleeRet(p, s.ret, g)
    && CalleeClobbers(s.noreturn, s.clobbers, g) == {}
  }

  // ------------------------------------------------------------ never returning

  lemma NoFuel(p: Program, m: Meaning, watch: Watch, f: Name, i: nat, c: File, w: World)
    requires WellFormed(p) && f in p.functions && i < |p.functions[f].nodes|
    ensures Run(p, m, watch, f, i, c, w, 0) == Exhausted([])
  {
  }

  lemma PrependKeeps()
    ensures forall events, o {:trigger Prepend(events, o)} ::
      (Prepend(events, o).Returned? <==> o.Returned?) && (o.Returned? ==> Prepend(events, o).file == o.file)
  {
  }

  /** A run that returns shows that the function can return. */
  lemma {:induction false} ReturningRunIsPath(p: Program, m: Meaning, watch: Watch, s: Solution, f: Name, i: nat,
      c: File, w: World, fuel: nat)
    requires WellFormed(p) && IsNoreturn(p, s.noreturn) && HelpersReturn(p, s)
    requires f in p.functions && i < |p.functions[f].nodes|
    requires Reachable(p.functions[f].nodes, s.noreturn, i)
    ensures Run(p, m, watch, f, i, c, w, fuel).Returned? ==> CanReturn(p.functions[f].nodes, s.noreturn)
    decreases fuel, 0
  {
    hide *;
    if fuel > 0 {
      NodeAt(p, f, i);
      StepNext(p, m, f, i, c, w);
      RunUnfolds(p, m, watch, f, i, c, w, fuel);
      StepEdge(p, m, s, f, i, c, w);
      PrependKeeps();
      match StepAt(p, m, f, i, c, w)
      case Ends(o) =>
      case Goes(next, c', w') =>
        ReachableStep(p.functions[f].nodes, s.noreturn, i, next);
        ReturningRunIsPath(p, m, watch, s, f, next, c', w', fuel - 1);
      case Calls(g, shown, w', next) =>
        var o := Invoke(p, m, watch, g, c, w', fuel - 1);
        if o.Returned? {
          NoreturnNeverReturns(p, m, watch, s, g, c, w', fuel - 1);
          ReachableStep(p.functions[f].nodes, s.noreturn, i, next);
          ReturningRunIsPath(p, m, watch, s, f, next, o.file, o.world, fuel - 1);
        }
    } else {
      NoFuel(p, m, watch, f, i, c, w);
    }
  }

  /** Every step is an edge of the graph, unless it calls a function that does not come back. */
  lemma StepEdge(p: Program, m: Meaning, s: Solution, f: Name, i: nat, c: File, w: World)
    requires f in p.functions && i < |p.functions[f].nodes|
    requires WellFormedNode(p.functions[f].nodes, p.functions[f].nodes[i])
    requires HelpersReturn(p, s)
    ensures var nodes := p.functions[f].nodes;
      match StepAt(p, m, f, i, c, w)
      case Ends(o) => o.Returned? && Reachable(nodes, s.noreturn, i) ==> CanReturn(nodes, s.noreturn)
      case Goes(next, _, _) => Edge(nodes, s.noreturn, i, next) && Edge(nodes, {}, i, next)
      case Calls(g, _, _, next) => (g !in s.noreturn ==> Edge(nodes, s.noreturn, i, next)) && Edge(nodes, {}, i, next)
  {
    var nodes := p.functions[f].nodes;
    StepNext(p, m, f, i, c, w);
    if StepAt(p, m, f, i, c, w).Ends? && nodes[i].leaves && Reachable(nodes, s.noreturn, i) {
      assert ReturnsAt(nodes, s.noreturn, i);
    }
  }

  /** No run of a function in the set ever returns. */
  lemma {:induction false} NoreturnNeverReturns(p: Program, m: Meaning, watch: Watch, s: Solution, g: Name, c: File,
      w: World, fuel: nat)
    requires WellFormed(p) && IsNoreturn(p, s.noreturn) && HelpersReturn(p, s)
    ensures Invoke(p, m, watch, g, c, w, fuel).Returned? ==> g !in s.noreturn
    decreases fuel, 1
  {
    hide *;
    InvokeUnfolds(p, m, watch, g, c, w, fuel);
    if g !in p.functions {
      HostKeeps(p, m, g, c, w, {});
    }
    NoreturnMembers(p, s, g);
    if g in p.functions && fuel > 0 {
      HasEntry(p, g);
      EntryReachable(p.functions[g].nodes, s.noreturn);
      ReturningRunIsPath(p, m, watch, s, g, 0, c, w, fuel - 1);
    }
  }

  lemma NoreturnMembers(p: Program, s: Solution, g: Name)
    requires IsNoreturn(p, s.noreturn)
    ensures g in s.noreturn && g in p.functions ==> !CanReturn(p.functions[g].nodes, s.noreturn)
    ensures g in s.noreturn && g !in p.functions ==> g in NORETURN_IMPORTS
  {
  }

  // ------------------------------------------------------------ clobbers

  /** The nonvolatile registers a run of the body may leave changed. */
  function BodyLeaves(p: Program, s: Solution, f: Name): set<Reg>
    requires f in p.functions
  {
    p.functions[f].written + CalleesLeave(p, s.noreturn, s.clobbers, f)
  }

  /** No run enters a save or restore helper: their calls are removed, or there are none. */
  ghost predicate HelpersOut(p: Program) {
    Drops(p) || forall f, n | f in p.functions && n in p.functions[f].nodes && n.kind == CALL ::
      !IsSaveRestore(n.callee)
  }

  /** Where no helper runs, every nonvolatile register outside changed is kept. */
  ghost predicate KeptBut(p: Program, a: File, b: File, changed: set<Reg>) {
    HelpersOut(p) ==> forall r | Saveable(r) && r !in changed :: At(a, r) == At(b, r)
  }

  ghost predicate KeptFields(a: File, b: File) {
    forall r | r in KEPT_FIELDS :: At(a, r) == At(b, r)
  }

  lemma {:induction false} BodyKeeps(p: Program, m: Meaning, watch: Watch, s: Solution, f: Name, i: nat, c: File,
      w: World, fuel: nat)
    requires Conventional(p, m, s) && IsNoreturn(p, s.noreturn) && IsClobbers(p, s.noreturn, s.clobbers)
    requires f in p.functions && i < |p.functions[f].nodes|
    requires WritesFound(p.functions[f].nodes, p.functions[f].written) && Reachable(p.functions[f].nodes, {}, i)
    ensures var o := Run(p, m, watch, f, i, c, w, fuel);
      o.Returned? ==> KeptBut(p, c, o.file, BodyLeaves(p, s, f))
    decreases fuel, 0
  {
    hide *;
    ConventionalHas(p, m, s, f);
    var leaves := BodyLeaves(p, s, f);
    KeptSame(p, c, leaves);
    if fuel == 0 {
      NoFuel(p, m, watch, f, i, c, w);
      return;
    }
    PrependKeeps();
    NodeAt(p, f, i);
    StepNext(p, m, f, i, c, w);
    RunUnfolds(p, m, watch, f, i, c, w, fuel);
    StepEdge(p, m, s, f, i, c, w);
    StepKeeps(p, m, s, f, i, c, w);
    match StepAt(p, m, f, i, c, w)
    case Ends(o) =>
    case Goes(next, c', w') =>
      ReachableStep(p.functions[f].nodes, {}, i, next);
      BodyKeeps(p, m, watch, s, f, next, c', w', fuel - 1);
      KeptOn(p, c, c', Run(p, m, watch, f, next, c', w', fuel - 1), leaves);
    case Calls(g, shown, w', next) =>
      var o := Invoke(p, m, watch, g, c, w', fuel - 1);
      if o.Returned? {
        CallKeeps(p, m, watch, s, g, c, w', fuel - 1);
        NoreturnNeverReturns(p, m, watch, s, g, c, w', fuel - 1);
        KeptMore(p, c, o.file, CalleeClobbers(s.noreturn, s.clobbers, g), leaves);
        ReachableStep(p.functions[f].nodes, {}, i, next);
        BodyKeeps(p, m, watch, s, f, next, o.file, o.world, fuel - 1);
        KeptOn(p, c, o.file, Run(p, m, watch, f, next, o.file, o.world, fuel - 1), leaves);
      }
  }

  lemma ConventionalHas(p: Program, m: Meaning, s: Solution, f: Name)
    requires Conventional(p, m, s)
    ensures WellFormed(p) && HelpersReturn(p, s)
    ensures f in p.functions ==> WritesKnown(p, m, f)
  {
  }

  lemma KeptMore(p: Program, a: File, b: File, changed: set<Reg>, more: set<Reg>)
    requires KeptBut(p, a, b, changed) && changed <= more
    ensures KeptBut(p, a, b, more)
  {
  }

  /** A statement changes only what it writes, and calls only what leaves no more than the body. */
  lemma StepKeeps(p: Program, m: Meaning, s: Solution, f: Name, i: nat, c: File, w: World)
    requires Conventional(p, m, s) && IsClobbers(p, s.noreturn, s.clobbers)
    requires f in p.functions && i < |p.functions[f].nodes|
    requires WellFormedNode(p.functions[f].nodes, p.functions[f].nodes[i])
    requires WritesFound(p.functions[f].nodes, p.functions[f].written) && Reachable(p.functions[f].nodes, {}, i)
    ensures match StepAt(p, m, f, i, c, w)
      case Ends(o) => o.Returned? ==> o.file == c
      case Goes(_, c', _) => KeptBut(p, c, c', BodyLeaves(p, s, f))
      case Calls(g, _, _, _) =>
        && (HelpersOut(p) ==> !IsSaveRestore(g))
        && (g !in s.noreturn ==> CalleeClobbers(s.noreturn, s.clobbers, g) <= BodyLeaves(p, s, f))
  {
    hide Reachable, WellFormed, Restrict, KeptBut, BodyLeaves, IndirectTarget, WritesFound;
    var n := p.functions[f].nodes[i];
    KeptSame(p, c, BodyLeaves(p, s, f));
    if n.kind == PLAIN {
      PlainKeeps(p, s, f, i, c, m.plain(f, i, Restrict(c, n.uses), w).registers);
    } else if n.kind in {CALL, ICALL} && !IsDropped(p, n) {
      CalleeLeavesLess(p, m, s, f, i, Restrict(c, n.uses), w);
    }
  }

  lemma CalleeLeavesLess(p: Program, m: Meaning, s: Solution, f: Name, i: nat, operands: File, w: World)
    requires Conventional(p, m, s) && IsClobbers(p, s.noreturn, s.clobbers)
    requires f in p.functions && i < |p.functions[f].nodes|
    requires p.functions[f].nodes[i].kind in {CALL, ICALL} && !IsDropped(p, p.functions[f].nodes[i])
    ensures var g := CalleeOf(m, f, i, p.functions[f].nodes[i], operands, w);
      && (HelpersOut(p) ==> !IsSaveRestore(g))
      && (g !in s.noreturn ==> CalleeClobbers(s.noreturn, s.clobbers, g) <= BodyLeaves(p, s, f))
  {
    hide *;
    CalleeIs(p, m, s, f, i, operands, w);
    if p.functions[f].nodes[i].kind == CALL {
      var g := p.functions[f].nodes[i].callee;
      InCallees(p.functions[f].nodes, i);
      if g !in s.noreturn {
        DirectLeavesLess(p, s, f, g);
      }
    }
  }

  lemma CalleeIs(p: Program, m: Meaning, s: Solution, f: Name, i: nat, operands: File, w: World)
    requires Conventional(p, m, s)
    requires f in p.functions && i < |p.functions[f].nodes|
    requires p.functions[f].nodes[i].kind in {CALL, ICALL} && !IsDropped(p, p.functions[f].nodes[i])
    ensures var n := p.functions[f].nodes[i];
      var g := CalleeOf(m, f, i, n, operands, w);
      && (HelpersOut(p) ==> !IsSaveRestore(g))
      && (n.kind == CALL ==> g == n.callee)
      && (n.kind == ICALL ==> CalleeClobbers(s.noreturn, s.clobbers, g) == {})
  {
    hide WellFormed, WritesKnown, HelpersReturn, Drops, CalleeClobbers;
    var n := p.functions[f].nodes[i];
    assert n in p.functions[f].nodes;
    assert n.kind == ICALL ==> IndirectTarget(p, s, m.target(f, i, operands, w));
  }

  lemma InCallees(nodes: seq<Node>, i: nat)
    requires i < |nodes| && nodes[i].kind == CALL
    ensures nodes[i].callee in CalleesOf(nodes)
  {
    assert nodes[i] in nodes;
  }

  lemma DirectLeavesLess(p: Program, s: Solution, f: Name, g: Name)
    requires IsClobbers(p, s.noreturn, s.clobbers) && f in p.functions
    requires g in CalleesOf(p.functions[f].nodes) && g !in s.noreturn
    ensures CalleeClobbers(s.noreturn, s.clobbers, g) <= BodyLeaves(p, s, f)
  {
    hide CalleesOf, ClobberEquation;
  }

  lemma KeptSame(p: Program, c: File, changed: set<Reg>)
    ensures KeptBut(p, c, c, changed)
  {
  }

  lemma KeptOn(p: Program, a: File, b: File, o: Outcome, changed: set<Reg>)
    requires KeptBut(p, a, b, changed)
    requires o.Returned? ==> KeptBut(p, b, o.file, changed)
    ensures o.Returned? ==> KeptBut(p, a, o.file, changed)
  {
  }

  lemma PlainKeeps(p: Program, s: Solution, f: Name, i: nat, c: File, out: File)
    requires f in p.functions && i < |p.functions[f].nodes| && p.functions[f].nodes[i].kind == PLAIN
    requires WritesFound(p.functions[f].nodes, p.functions[f].written)
    requires Reachable(p.functions[f].nodes, {}, i)
    ensures KeptBut(p, c, Override(c, out, p.functions[f].nodes[i].writes), BodyLeaves(p, s, f))
  {
    hide Reachable;
    var nodes := p.functions[f].nodes;
    assert forall r | r in nodes[i].writes :: WritesAt(nodes, i, r);
  }

  /** A returning call keeps every nonvolatile register outside the callee's clobbers. */
  lemma {:induction false} CallKeeps(p: Program, m: Meaning, watch: Watch, s: Solution, g: Name, c: File, w: World,
      fuel: nat)
    requires Conventional(p, m, s) && IsNoreturn(p, s.noreturn) && IsClobbers(p, s.noreturn, s.clobbers)
    requires HelpersOut(p) ==> !IsSaveRestore(g)
    ensures var o := Invoke(p, m, watch, g, c, w, fuel);
      o.Returned? ==> KeptBut(p, c, o.file, CalleeClobbers(s.noreturn, s.clobbers, g)) && KeptFields(c, o.file)
    decreases fuel, 1
  {
    hide *;
    ConventionalHas(p, m, s, g);
    InvokeUnfolds(p, m, watch, g, c, w, fuel);
    if g !in p.functions {
      HostKeeps(p, m, g, c, w, CalleeClobbers(s.noreturn, s.clobbers, g));
    } else if fuel > 0 {
      var body := Run(p, m, watch, g, 0, c, w, fuel - 1);
      if body.Returned? {
        NoreturnNeverReturns(p, m, watch, s, g, c, w, fuel);
        FieldsKept(p, g, c, body.file);
        if HelpersOut(p) {
          WritesOrNotBack(p, m, watch, g, c, w, fuel);
          EntryReachable(p.functions[g].nodes, {});
          BodyKeeps(p, m, watch, s, g, 0, c, w, fuel - 1);
          ClobbersOf(p, s, g);
          RestoreKeeps(p, s, g, c, body.file);
        } else {
          NothingKept(p, c, Override(body.file, c, Restored(p, g)), CalleeClobbers(s.noreturn, s.clobbers, g));
        }
      }
    }
  }

  lemma WritesOrNotBack(p: Program, m: Meaning, watch: Watch, g: Name, c: File, w: World, fuel: nat)
    requires WellFormed(p) && g in p.functions && WritesKnown(p, m, g)
    ensures Invoke(p, m, watch, g, c, w, fuel).Returned? ==> WritesFound(p.functions[g].nodes, p.functions[g].written)
  {
    hide WellFormed, WritesFound, SwitchesFrame, Invoke;
  }

  lemma NothingKept(p: Program, a: File, b: File, changed: set<Reg>)
    requires !HelpersOut(p)
    ensures KeptBut(p, a, b, changed)
  {
  }

  lemma FieldsKept(p: Program, g: Name, c: File, after: File)
    ensures KeptFields(c, Override(after, c, Restored(p, g)))
  {
    hide KEPT_FIELDS;
  }

  lemma ClobbersOf(p: Program, s: Solution, g: Name)
    requires IsClobbers(p, s.noreturn, s.clobbers) && g in p.functions && !IsSaveRestore(g) && g !in s.noreturn
    ensures CalleeClobbers(s.noreturn, s.clobbers, g) == BodyLeaves(p, s, g) - p.functions[g].saved
  {
  }

  lemma RestoreKeeps(p: Program, s: Solution, g: Name, c: File, after: File)
    requires g in p.functions && KeptBut(p, c, after, BodyLeaves(p, s, g))
    ensures KeptBut(p, c, Override(after, c, Restored(p, g)), BodyLeaves(p, s, g) - p.functions[g].saved)
  {
    hide BodyLeaves, HelpersOut;
  }

  lemma HostKeeps(p: Program, m: Meaning, g: Name, c: File, w: World, changed: set<Reg>)
    ensures var o := HostCall(p, m, g, c, w);
      o.Returned? ==>
        && ((HelpersOut(p) ==> !IsSaveRestore(g)) ==> KeptBut(p, c, o.file, changed))
        && KeptFields(c, o.file) && g !in NORETURN_IMPORTS
  {
    hide HelpersOut;
  }

  // ------------------------------------------------------------ registers left alone

  /** Where calls from a function of the set may lead and come back from is in the set. */
  ghost predicate RunsWithin(p: Program, s: Solution, reach: set<Name>) {
    forall h, n | h in reach && h in p.functions && n in p.functions[h].nodes :: StaysWithin(p, s, reach, n)
  }

  predicate StaysWithin(p: Program, s: Solution, reach: set<Name>, n: Node) {
    n.kind == CALL && !IsDropped(p, n) && n.callee !in s.noreturn ==> n.callee in reach
  }

  /** Functions that call only each other, directly, and do not write r. */
  ghost predicate NoneWrites(p: Program, s: Solution, reach: set<Name>, r: Reg) {
    && reach <= p.functions.Keys && RunsWithin(p, s, reach)
    && forall h, n | h in reach && n in p.functions[h].nodes :: n.kind != ICALL && !(n.kind == PLAIN && r in n.writes)
  }

  /** A call of g that comes back leaves r as it was. */
  ghost predicate Untouched(p: Program, s: Solution, g: Name, r: Reg) {
    exists reach :: g in reach && NoneWrites(p, s, reach, r)
  }

  lemma {:induction false} BodyLeavesAlone(p: Program, m: Meaning, watch: Watch, s: Solution, reach: set<Name>, r: Reg,
                                           f: Name, i: nat, c: File, w: World, fuel: nat)
    requires WellFormed(p) && IsNoreturn(p, s.noreturn) && HelpersReturn(p, s) && NoneWrites(p, s, reach, r)
    requires f in reach && f in p.functions && i < |p.functions[f].nodes|
    ensures var o := Run(p, m, watch, f, i, c, w, fuel);
      o.Returned? ==> At(o.file, r) == At(c, r)
    decreases fuel, 0
  {
    hide *;
    if fuel == 0 {
      NoFuel(p, m, watch, f, i, c, w);
      return;
    }
    PrependKeeps();
    NodeAt(p, f, i);
    StepNext(p, m, f, i, c, w);
    RunUnfolds(p, m, watch, f, i, c, w, fuel);
    StepLeavesAlone(p, m, s, reach, r, f, i, c, w);
    match StepAt(p, m, f, i, c, w)
    case Ends(o) =>
    case Goes(next, c', w') =>
      BodyLeavesAlone(p, m, watch, s, reach, r, f, next, c', w', fuel - 1);
    case Calls(g, shown, w', next) =>
      var o := Invoke(p, m, watch, g, c, w', fuel - 1);
      if o.Returned? {
        NoreturnNeverReturns(p, m, watch, s, g, c, w', fuel - 1);
        CallLeavesAlone(p, m, watch, s, reach, r, g, c, w', fuel - 1);
        BodyLeavesAlone(p, m, watch, s, reach, r, f, next, o.file, o.world, fuel - 1);
      }
  }

  lemma StepLeavesAlone(p: Program, m: Meaning, s: Solution, reach: set<Name>, r: Reg, f: Name, i: nat, c: File,
      w: World)
    requires NoneWrites(p, s, reach, r) && f in reach && f in p.functions && i < |p.functions[f].nodes|
    requires WellFormedNode(p.functions[f].nodes, p.functions[f].nodes[i])
    ensures match StepAt(p, m, f, i, c, w)
      case Ends(o) => o.Returned? ==> o.file == c
      case Goes(_, c', _) => At(c', r) == At(c, r)
      case Calls(g, _, _, _) => g !in s.noreturn ==> g in reach
  {
    hide Restrict;
    var n := p.functions[f].nodes[i];
    assert n in p.functions[f].nodes && StaysWithin(p, s, reach, n);
  }

  lemma {:induction false} CallLeavesAlone(p: Program, m: Meaning, watch: Watch, s: Solution, reach: set<Name>, r: Reg,
                                           g: Name, c: File, w: World, fuel: nat)
    requires WellFormed(p) && IsNoreturn(p, s.noreturn) && HelpersReturn(p, s) && NoneWrites(p, s, reach, r)
    requires g in reach
    ensures var o := Invoke(p, m, watch, g, c, w, fuel);
      o.Returned? ==> At(o.file, r) == At(c, r)
    decreases fuel, 1
  {
    hide *;
    ReachIsProgram(p, s, reach, r);
    InvokeUnfolds(p, m, watch, g, c, w, fuel);
    if fuel > 0 {
      BodyLeavesAlone(p, m, watch, s, reach, r, g, 0, c, w, fuel - 1);
    }
  }

  lemma ReachIsProgram(p: Program, s: Solution, reach: set<Name>, r: Reg)
    requires NoneWrites(p, s, reach, r)
    ensures reach <= p.functions.Keys
  {
  }

  /** A register nothing a call runs may write has its old value when it comes back. */
  lemma UntouchedKept(p: Program, m: Meaning, watch: Watch, s: Solution, r: Reg, g: Name, c: File, w: World, fuel: nat)
    requires WellFormed(p) && IsNoreturn(p, s.noreturn) && HelpersReturn(p, s) && Untouched(p, s, g, r)
    ensures var o := Invoke(p, m, watch, g, c, w, fuel);
      o.Returned? ==> At(o.file, r) == At(c, r)
  {
    hide *;
    var reach := UntouchedWithin(p, s, g, r);
    CallLeavesAlone(p, m, watch, s, reach, r, g, c, w, fuel);
  }

  lemma UntouchedWithin(p: Program, s: Solution, g: Name, r: Reg) returns (reach: set<Name>)
    requires Untouched(p, s, g, r)
    ensures g in reach && NoneWrites(p, s, reach, r)
  {
    hide NoneWrites;
    reach :| g in reach && NoneWrites(p, s, reach, r);
  }
}
