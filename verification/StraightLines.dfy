/** Programs of straight-line functions: their analysis, solved by reading each function
    backwards, and their runs before and after the conversion, statement by statement. */
module StraightLines {
  import opened Registers
  import opened Programs
  import opened Liveness
  import opened CallGraph
  import opened Analysis
  import opened Machine
  import opened CallFacts
  import opened Noninterference
  import opened Transform
  import opened TargetMachine
  import opened Simulation

  // ------------------------------------------------------------ straight-line functions

  function Does(uses: set<Reg>, defs: set<Reg>, next: nat): Node {
    Node(PLAIN, uses, defs, defs, {}, {}, {}, [next], Named(""), {}, false, false)
  }

  function CallTo(g: Name, next: nat): Node {
    Node(CALL, {}, {}, {}, {}, {}, {}, [next], g, {}, false, false)
  }

  const LEAVE: Node := Node(EXIT, {}, {}, {}, {}, {}, {}, [], Named(""), {}, true, false)

  /** Plain statements and calls of program functions, one after the other, then a return. */
  predicate Line(nodes: seq<Node>) {
    && nodes != []
    && nodes[|nodes| - 1] == LEAVE
    && forall i | 0 <= i < |nodes| - 1 :: OnLine(nodes[i], i)
  }

  predicate OnLine(n: Node, i: nat) {
    && n == (if n.kind == CALL then CallTo(n.callee, i + 1) else Does(n.uses, n.defs, i + 1))
    && (n.kind == CALL ==> n.callee !in NORETURN_IMPORTS && !IsSaveRestore(n.callee))
  }

  lemma OutOfOne(next: nat, live: Masks)
    requires next < |live|
    ensures Out([next], live) == live[next]
  {
    assert [next][0] == next;
  }

  lemma OutOfNone(live: Masks)
    ensures Out([], live) == {}
  {
  }

  /** The equations of a straight line, read backwards. */
  ghost predicate Backwards(nodes: seq<Node>, gen: Masks, kill: Masks, live: Masks)
    requires |gen| == |kill| == |nodes|
  {
    && |live| == |nodes| && nodes != []
    && live[|nodes| - 1] == gen[|nodes| - 1]
    && forall i | 0 <= i < |nodes| - 1 :: live[i] == gen[i] + (live[i + 1] - kill[i])
  }

  lemma LineIsSolved(nodes: seq<Node>, gen: Masks, kill: Masks, live: Masks)
    requires Line(nodes) && |gen| == |kill| == |nodes| == |live|
    ensures IsSolution(nodes, gen, kill, live) <==> Backwards(nodes, gen, kill, live)
  {
    hide Equation, Line, OnLine, Backwards, Previous;
    LineHasNodes(nodes);
    forall i | 0 <= i < |nodes| ensures Equation(nodes, gen, kill, live, i) == Previous(gen, kill, live, i) {
      LineEquation(nodes, gen, kill, live, i);
    }
    BackwardsIs(nodes, gen, kill, live);
  }

  function Previous(gen: Masks, kill: Masks, live: Masks, i: nat): set<Reg>
    requires |gen| == |kill| == |live| && i < |live|
  {
    if i == |live| - 1 then gen[i] else gen[i] + (live[i + 1] - kill[i])
  }

  lemma BackwardsIs(nodes: seq<Node>, gen: Masks, kill: Masks, live: Masks)
    requires |gen| == |kill| == |nodes| == |live| && nodes != []
    ensures Backwards(nodes, gen, kill, live) <==> forall i | 0 <= i < |live| :: live[i] == Previous(gen, kill, live, i)
  {
    if forall i | 0 <= i < |live| :: live[i] == Previous(gen, kill, live, i) {
      assert live[|live| - 1] == Previous(gen, kill, live, |live| - 1);
    }
  }

  lemma LineEquation(nodes: seq<Node>, gen: Masks, kill: Masks, live: Masks, i: nat)
    requires Line(nodes) && |gen| == |kill| == |nodes| == |live| && i < |nodes|
    ensures Equation(nodes, gen, kill, live, i) == Previous(gen, kill, live, i)
  {
    hide Out, OnLine;
    if i < |nodes| - 1 {
      LineSucc(nodes, i);
      OutOfOne(i + 1, live);
    } else {
      OutOfNone(live);
    }
  }

  lemma {:induction false} BackwardsOnly(nodes: seq<Node>, gen: Masks, kill: Masks, live: Masks, other: Masks, i: nat)
    requires |gen| == |kill| == |nodes| && i < |nodes|
    requires Backwards(nodes, gen, kill, live) && Backwards(nodes, gen, kill, other)
    ensures live[i] == other[i]
    decreases |nodes| - i
  {
    if i < |nodes| - 1 {
      BackwardsOnly(nodes, gen, kill, live, other, i + 1);
    }
  }

  lemma LineIsLeast(nodes: seq<Node>, gen: Masks, kill: Masks, live: Masks)
    requires Line(nodes) && |gen| == |kill| == |nodes| && Backwards(nodes, gen, kill, live)
    ensures IsLeastSolution(nodes, gen, kill, live)
  {
    LineIsSolved(nodes, gen, kill, live);
    forall other: Masks | IsSolution(nodes, gen, kill, other) ensures Below(live, other) {
      LineIsSolved(nodes, gen, kill, other);
      forall i | 0 <= i < |live| ensures live[i] <= other[i] {
        BackwardsOnly(nodes, gen, kill, live, other, i);
      }
    }
  }

  lemma LineReturns(nodes: seq<Node>)
    requires Line(nodes)
    ensures CanReturn(nodes, NORETURN_IMPORTS)
  {
    var path: seq<nat> := seq(|nodes|, i requires 0 <= i => i);
    forall k | 0 <= k < |path| - 1 ensures Edge(nodes, NORETURN_IMPORTS, path[k], path[k + 1]) {
      assert OnLine(nodes[k], k);
      assert nodes[k].succ[0] == k + 1;
    }
    assert Path(nodes, NORETURN_IMPORTS, path);
    assert ReturnsAt(nodes, NORETURN_IMPORTS, |nodes| - 1);
  }

  /** Straight-line functions that call only each other. */
  ghost predicate Lines(p: Program) {
    && p.host == map[]
    && forall f | f in p.functions :: f !in NORETURN_IMPORTS && !IsSaveRestore(f) && Line(p.functions[f].nodes)
  }

  lemma NoreturnOfLines(p: Program)
    requires Lines(p)
    ensures IsNoreturn(p, NORETURN_IMPORTS)
  {
    forall f | f in p.functions ensures CanReturn(p.functions[f].nodes, NORETURN_IMPORTS) {
      LineReturns(p.functions[f].nodes);
    }
  }

  /** The function's sets are what its equations give, read backwards. */
  ghost predicate Flows(p: Program, s: Solution, f: Name)
    requires f in p.functions
  {
    && f in s.livebefore && f in s.livein && s.livebefore[f] != []
    && Backwards(p.functions[f].nodes, Gens(p, f, s.livein, s.ret, s.indirectLivein, false),
      Kills(p, f, s.ret, s.indirectRet), s.livebefore[f])
    && s.livein[f] == s.livebefore[f][0] * p.localised
  }

  lemma FlowsSettled(p: Program, s: Solution, f: Name)
    requires Lines(p) && f in p.functions && Flows(p, s, f)
    ensures Settled(p, s, f)
  {
    hide Lines, Settled, Backwards, Gens, Kills;
    SettledLine(p, s, f, Gens(p, f, s.livein, s.ret, s.indirectLivein, false), Kills(p, f, s.ret, s.indirectRet));
  }

  lemma SettledLine(p: Program, s: Solution, f: Name, gen: Masks, kill: Masks)
    requires Lines(p) && f in p.functions && f in s.livebefore && f in s.livein
    requires gen == Gens(p, f, s.livein, s.ret, s.indirectLivein, false) && kill == Kills(p, f, s.ret, s.indirectRet)
    requires Backwards(p.functions[f].nodes, gen, kill, s.livebefore[f])
    requires s.livein[f] == s.livebefore[f][0] * p.localised
    ensures Settled(p, s, f)
  {
    hide Backwards, Gens, Kills, IsLeastSolution, Line;
    LineIsLeast(p.functions[f].nodes, gen, kill, s.livebefore[f]);
    LineHasNodes(p.functions[f].nodes);
  }

  lemma LineHasNodes(nodes: seq<Node>)
    requires Line(nodes)
    ensures nodes != []
  {
  }

  /** What a function reads itself after a call, on a straight line. */
  lemma OwnReadsOnLine(p: Program, s: Solution, f: Name, gen: Masks, own: Masks, i: nat, r: Reg)
    requires Lines(p) && f in p.functions && i < |p.functions[f].nodes| - 1
    requires gen == Gens(p, f, s.livein, s.ret, {}, true)
    requires Backwards(p.functions[f].nodes, gen, Kills(p, f, s.ret, s.indirectRet), own)
    ensures ReadAfter(p, s, f, i, r) <==> r in own[i + 1]
  {
    hide Backwards, Gens, Kills, IsLeastSolution, Live;
    var nodes, kill := p.functions[f].nodes, Kills(p, f, s.ret, s.indirectRet);
    LineIsLeast(nodes, gen, kill, own);
    LineGraph(nodes, gen, kill);
    LineSucc(nodes, i);
    LeastLength(nodes, gen, kill, own);
    LeastSolutionIsLive(nodes, gen, kill, own, i + 1, r);
    assert forall t: nat :: t in nodes[i].succ <==> t == i + 1;
    if Live(nodes, gen, kill, i + 1, r) {
      assert i + 1 in nodes[i].succ;
    }
  }

  lemma LineSucc(nodes: seq<Node>, i: nat)
    requires Line(nodes) && i < |nodes| - 1
    ensures nodes[i].succ == [i + 1] && nodes[i].succ[0] == i + 1
  {
    assert OnLine(nodes[i], i);
  }

  lemma LineGraph(nodes: seq<Node>, gen: Masks, kill: Masks)
    requires Line(nodes) && |gen| == |kill| == |nodes|
    ensures Graph(nodes, gen, kill)
  {
    forall i, t: nat | 0 <= i < |nodes| && t in nodes[i].succ ensures t < |nodes| {
      if i < |nodes| - 1 {
        assert OnLine(nodes[i], i);
      }
    }
  }

  lemma LineWellFormed(nodes: seq<Node>)
    requires Line(nodes)
    ensures WellFormedNodes(nodes)
  {
    assert Widen({}) == {};
    forall i | 0 <= i < |nodes| ensures WellFormedNode(nodes, nodes[i]) {
      if i < |nodes| - 1 {
        assert OnLine(nodes[i], i);
      }
    }
  }

  lemma LinesWellFormed(p: Program)
    requires Lines(p) && Selected(p.localised)
    requires forall f, n | f in p.functions && n in p.functions[f].nodes :: n.writes <= p.functions[f].referenced
    requires forall f | f in p.functions :: forall r | r in p.functions[f].saved :: Saveable(r)
    ensures WellFormed(p)
  {
    hide Line, Selected;
    forall f | f in p.functions ensures WellFormedNodes(p.functions[f].nodes) {
      LineWellFormed(p.functions[f].nodes);
    }
  }

  // ------------------------------------------------------------ the only solution

  lemma OneNoreturn(p: Program, a: set<Name>, b: set<Name>)
    requires IsNoreturn(p, a) && IsNoreturn(p, b)
    ensures a == b
  {
    hide CanReturn;
    assert a <= b && b <= a;
  }

  lemma OneClobbers(p: Program, noreturn: set<Name>, a: RegSets, b: RegSets)
    requires IsLeastClobbers(p, noreturn, a) && IsLeastClobbers(p, noreturn, b)
    ensures a == b
  {
    hide ClobberEquation;
    assert SetsBelow(a, b) && SetsBelow(b, a);
    assert forall f | f in a :: a[f] == b[f];
  }

  /** The callees' sets being given, a straight line has one solution. */
  lemma OneFlow(p: Program, s: Solution, other: Solution, f: Name)
    requires Lines(p) && f in p.functions && Settled(p, s, f) && Flows(p, other, f)
    requires Gens(p, f, s.livein, s.ret, s.indirectLivein, false)
      == Gens(p, f, other.livein, other.ret, other.indirectLivein, false)
    requires Kills(p, f, s.ret, s.indirectRet) == Kills(p, f, other.ret, other.indirectRet)
    ensures s.livebefore[f] == other.livebefore[f] && s.livein[f] == other.livein[f]
  {
    hide Gens, Kills, Lines, Line, Backwards, IsSolution, Below;
    var nodes := p.functions[f].nodes;
    var gen, kill := Gens(p, f, s.livein, s.ret, s.indirectLivein, false), Kills(p, f, s.ret, s.indirectRet);
    var a, b := s.livebefore[f], other.livebefore[f];
    LineOf(p, f);
    LeastLength(nodes, gen, kill, a);
    LineIsSolved(nodes, gen, kill, a);
    BackwardsLength(nodes, gen, kill, b);
    forall i | 0 <= i < |a| ensures a[i] == b[i] {
      BackwardsOnly(nodes, gen, kill, a, b, i);
    }
    assert a == b;
    EntrySets(p, s, other, f);
  }

  lemma EntrySets(p: Program, s: Solution, other: Solution, f: Name)
    requires f in p.functions && Settled(p, s, f) && Flows(p, other, f) && s.livebefore[f] == other.livebefore[f]
    ensures s.livein[f] == other.livein[f]
  {
    hide IsLeastSolution, Backwards, Gens, Kills;
  }

  lemma LineOf(p: Program, f: Name)
    requires Lines(p) && f in p.functions
    ensures Line(p.functions[f].nodes)
  {
  }

  lemma BackwardsLength(nodes: seq<Node>, gen: Masks, kill: Masks, live: Masks)
    requires |gen| == |kill| == |nodes| && Backwards(nodes, gen, kill, live)
    ensures |live| == |nodes|
  {
  }

  /** Two solutions of the same lines whose callees are settled alike have the same equations. */
  lemma SameEquations(p: Program, s: Solution, other: Solution, f: Name)
    requires Lines(p) && f in p.functions && s.ret == other.ret && s.indirectRet == other.indirectRet
    requires forall g | g in CalleesOf(p.functions[f].nodes) :: Lookup(s.livein, g) == Lookup(other.livein, g)
    ensures Gens(p, f, s.livein, s.ret, s.indirectLivein, false)
      == Gens(p, f, other.livein, other.ret, other.indirectLivein, false)
    ensures Kills(p, f, s.ret, s.indirectRet) == Kills(p, f, other.ret, other.indirectRet)
  {
    hide CalleesOf, Kill;
    var nodes := p.functions[f].nodes;
    forall i | 0 <= i < |nodes|
      ensures Gen(p, f, s.livein, s.ret, s.indirectLivein, false, nodes[i]) ==
              Gen(p, f, other.livein, other.ret, other.indirectLivein, false, nodes[i])
    {
      if nodes[i].kind == CALL {
        InCallees(nodes, i);
      } else if i < |nodes| - 1 {
        assert OnLine(nodes[i], i);
      }
    }
  }

  /** A leaf settles alone, and a caller once its callees are. */
  lemma SettledAlike(p: Program, s: Solution, other: Solution, f: Name)
    requires Lines(p) && f in p.functions && Settled(p, s, f) && Flows(p, other, f)
    requires s.ret == other.ret && s.indirectRet == other.indirectRet
    requires forall g | g in CalleesOf(p.functions[f].nodes) :: Lookup(s.livein, g) == Lookup(other.livein, g)
    ensures s.livebefore[f] == other.livebefore[f] && s.livein[f] == other.livein[f]
  {
    hide Lines, Settled, Flows, CalleesOf, Gens, Kills;
    SameEquations(p, s, other, f);
    OneFlow(p, s, other, f);
  }

  /** Functions listed after those they call. */
  ghost predicate CalleesFirst(p: Program, order: seq<Name>) {
    && Names(order) == p.functions.Keys
    && forall k | 0 <= k < |order| && order[k] in p.functions ::
      CalleesOf(p.functions[order[k]].nodes) <= Names(order[..k])
  }

  /** Sets the equations of every line give, with what lines leave, under the convention for indirect calls. */
  ghost predicate LineSets(p: Program, s: Solution) {
    && Lines(p) && s.noreturn == NORETURN_IMPORTS && IsLeastClobbers(p, s.noreturn, s.clobbers)
    && s.livein.Keys == s.ret.Keys == s.livebefore.Keys == p.functions.Keys
    && s.indirectRet == {} && s.indirectLivein == IndirectReads(p)
    && forall f | f in p.functions :: Flows(p, s, f)
  }

  lemma LineSetsRound(p: Program, s: Solution)
    requires LineSets(p, s)
    ensures Round(p, s) && Lines(p)
  {
    hide Lines, IsNoreturn, IsLeastClobbers, Settled, Flows;
    NoreturnOfLines(p);
    forall f | f in p.functions ensures Settled(p, s, f) {
      FlowsSettled(p, s, f);
    }
  }

  lemma RoundOfLines(p: Program, s: Solution, other: Solution)
    requires Lines(p) && Round(p, s) && LineSets(p, other)
    ensures s.noreturn == NORETURN_IMPORTS && s.clobbers == other.clobbers
  {
    hide Lines, IsNoreturn, IsLeastClobbers, SettledExcept, Flows;
    NoreturnOfLines(p);
    OneNoreturn(p, s.noreturn, NORETURN_IMPORTS);
    OneClobbers(p, NORETURN_IMPORTS, s.clobbers, other.clobbers);
  }

  /** Such sets are what solve returns, if what they return is closed under asking and was asked for. */
  lemma LineSetsSolve(p: Program, targets: seq<Name>, s: Solution)
    requires LineSets(p, s) && RetsBounded(p, s, s.ret)
    requires ClosedUnderAsking(p, targets, true, s.ret, {}) && RetsFounded(p, targets, true, s.ret, {})
    ensures SolvesTo(p, targets, true, s)
  {
    hide Lines, IsNoreturn, IsLeastClobbers, Flows, Needed, RetsBounded, RetsFounded, Settled;
    LineSetsRound(p, s);
    forall f, i | f in p.functions && 0 <= i < |p.functions[f].nodes| ensures CallSupplied(p, s, f, i) {
      var g := p.functions[f].nodes[i].callee;
      forall r | p.functions[f].nodes[i].kind == CALL && g in p.functions && g !in s.noreturn && Needed(p, s, f, i, r)
        ensures r in Lookup(s.ret, g)
      {
        assert AsksDirectly(p, s, f, i, g, r);
      }
    }
  }

  /** And the only thing solve returns, if it returns the same registers. */
  lemma OnlySolution(p: Program, targets: seq<Name>, s: Solution, other: Solution, order: seq<Name>)
    requires SolvesTo(p, targets, true, s) && LineSets(p, other) && s.ret == other.ret && CalleesFirst(p, order)
    ensures s == other
  {
    hide *;
    SolvesHas(p, targets, s);
    LineSetsRound(p, other);
    RoundOfLines(p, s, other);
    LineSetsHas(p, other);
    OrderHolds(p, order);
    for k := 0 to |order|
      invariant forall j | 0 <= j < k :: SameAt(s, other, order[j])
    {
      InNames(order, k);
      CalleesSame(p, s, other, order, k);
      SettledOne(p, s, order[k]);
      FlowsOne(p, other, order[k]);
      SettledAlike(p, s, other, order[k]);
      SameIs(p, s, other, order[k]);
    }
    forall f | f in p.functions ensures SameAt(s, other, f) {
      var k :| 0 <= k < |order| && order[k] == f;
    }
    SameMaps(p, s, other);
  }

  ghost predicate SameAt(s: Solution, other: Solution, f: Name) {
    && f in s.livein && f in other.livein && s.livein[f] == other.livein[f]
    && f in s.livebefore && f in other.livebefore && s.livebefore[f] == other.livebefore[f]
  }

  lemma SolvesHas(p: Program, targets: seq<Name>, s: Solution)
    requires SolvesTo(p, targets, true, s)
    ensures Solved(p, s) && Round(p, s) && s.indirectRet == {} && s.indirectLivein == IndirectReads(p)
    ensures s.livein.Keys == s.ret.Keys == s.livebefore.Keys == p.functions.Keys
    ensures RetsFounded(p, targets, true, s.ret, s.indirectRet)
  {
    hide IsNoreturn, IsLeastClobbers, Settled, CallSupplied, RetsBounded, RetsFounded;
  }

  lemma LineSetsHas(p: Program, s: Solution)
    requires LineSets(p, s)
    ensures Lines(p) && s.noreturn == NORETURN_IMPORTS && s.indirectRet == {} && s.indirectLivein == IndirectReads(p)
    ensures s.livein.Keys == s.ret.Keys == s.livebefore.Keys == p.functions.Keys
  {
    hide Lines, IsLeastClobbers, Flows;
  }

  lemma CalleesSame(p: Program, s: Solution, other: Solution, order: seq<Name>, k: nat)
    requires CalleesFirst(p, order) && k < |order| && order[k] in p.functions
    requires forall j | 0 <= j < k :: SameAt(s, other, order[j])
    ensures forall g | g in CalleesOf(p.functions[order[k]].nodes) :: Lookup(s.livein, g) == Lookup(other.livein, g)
  {
    hide CalleesOf;
    forall g | g in CalleesOf(p.functions[order[k]].nodes) ensures Lookup(s.livein, g) == Lookup(other.livein, g) {
      assert g in Names(order[..k]);
      var j :| 0 <= j < k && order[j] == g;
    }
  }

  lemma SettledOne(p: Program, s: Solution, f: Name)
    requires Round(p, s) && f in p.functions
    ensures Settled(p, s, f)
  {
    hide Settled, IsNoreturn, IsLeastClobbers;
  }

  lemma FlowsOne(p: Program, s: Solution, f: Name)
    requires LineSets(p, s) && f in p.functions
    ensures Flows(p, s, f)
  {
    hide Lines, IsLeastClobbers, Flows;
  }

  lemma SameIs(p: Program, s: Solution, other: Solution, f: Name)
    requires f in s.livein && f in other.livein && f in s.livebefore && f in other.livebefore
    requires s.livebefore[f] == other.livebefore[f] && s.livein[f] == other.livein[f]
    ensures SameAt(s, other, f)
  {
  }

  lemma OrderHolds(p: Program, order: seq<Name>)
    requires CalleesFirst(p, order)
    ensures forall k | 0 <= k < |order| :: order[k] in p.functions
    ensures forall f | f in p.functions :: exists k :: 0 <= k < |order| && order[k] == f
  {
    hide CalleesOf;
    assert forall k | 0 <= k < |order| :: order[k] in Names(order);
    forall f | f in p.functions ensures exists k :: 0 <= k < |order| && order[k] == f {
      assert f in Names(order);
    }
  }

  lemma SameMaps(p: Program, s: Solution, other: Solution)
    requires s.livein.Keys == s.livebefore.Keys == other.livein.Keys == other.livebefore.Keys == p.functions.Keys
    requires forall f | f in p.functions :: SameAt(s, other, f)
    requires s.noreturn == other.noreturn && s.clobbers == other.clobbers && s.ret == other.ret
    requires s.indirectRet == other.indirectRet && s.indirectLivein == other.indirectLivein
    ensures s == other
  {
    assert s.livein == other.livein && s.livebefore == other.livebefore;
  }

  // ------------------------------------------------------------ their runs

  /** A run returns with this world, leaving this value in the register. */
  ghost predicate Leaves(o: Outcome, w: World, r: Reg, v: Value) {
    o.Returned? && o.world == w && At(o.file, r) == v
  }

  ghost predicate SameReturn(o: Outcome, rest: Outcome) {
    rest.Returned? ==> o.Returned? && o.file == rest.file && o.world == rest.world
  }

  lemma RunDoes(p: Program, m: Meaning, f: Name, i: nat, uses: set<Reg>, defs: set<Reg>, c: File, w: World, fuel: nat)
    requires WellFormed(p) && f in p.functions && i + 1 < |p.functions[f].nodes| && fuel > 0
    requires p.functions[f].nodes[i] == Does(uses, defs, i + 1)
    ensures var e := m.plain(f, i, Restrict(c, uses), w);
      SameReturn(Run(p, m, map[], f, i, c, w, fuel),
        Run(p, m, map[], f, i + 1, Override(c, e.registers, defs), e.world, fuel - 1))
  {
    hide WellFormed, Run, Override, Restrict, Invoke;
    NodeAt(p, f, i);
    RunUnfolds(p, m, map[], f, i, c, w, fuel);
  }

  lemma RunCalls(p: Program, m: Meaning, f: Name, i: nat, g: Name, c: File, w: World, fuel: nat)
    requires WellFormed(p) && f in p.functions && i + 1 < |p.functions[f].nodes| && fuel > 0
    requires p.functions[f].nodes[i] == CallTo(g, i + 1) && !Dropped(p, g)
    ensures var back := Invoke(p, m, map[], g, c, m.hook(f, i, Restrict(c, {}), w), fuel - 1);
      back.Returned? ==>
        SameReturn(Run(p, m, map[], f, i, c, w, fuel), Run(p, m, map[], f, i + 1, back.file, back.world, fuel - 1))
  {
    hide WellFormed, Run, Override, Restrict, Invoke, Dropped;
    NodeAt(p, f, i);
    RunUnfolds(p, m, map[], f, i, c, w, fuel);
  }

  lemma RunLeaves(p: Program, m: Meaning, f: Name, i: nat, c: File, w: World, fuel: nat)
    requires WellFormed(p) && f in p.functions && i < |p.functions[f].nodes| && fuel > 0
    requires p.functions[f].nodes[i] == LEAVE
    ensures var o := Run(p, m, map[], f, i, c, w, fuel);
      o.Returned? && o.file == c && o.world == w
  {
    hide WellFormed, Run, Override, Restrict, Invoke;
    NodeAt(p, f, i);
    RunUnfolds(p, m, map[], f, i, c, w, fuel);
  }

  lemma InvokeLeaves(p: Program, m: Meaning, g: Name, c: File, w: World, fuel: nat, w': World, r: Reg, v: Value)
    requires WellFormed(p) && g in p.functions && fuel > 0 && |p.functions[g].nodes| > 0
    requires Leaves(Run(p, m, map[], g, 0, c, w, fuel - 1), w', r, v)
    ensures Leaves(Invoke(p, m, map[], g, c, w, fuel), w', r, if r in Restored(p, g) then At(c, r) else v)
  {
    hide WellFormed, Run, Override, Restored, Invoke;
    InvokeUnfolds(p, m, map[], g, c, w, fuel);
  }

  /** One plain statement of converted code with no stores or loads around it. */
  lemma TargetDoes(p: Program, code: Code, m: Meaning, f: Name, i: nat, uses: set<Reg>, defs: set<Reg>, l: File,
      c: File, w: World, fuel: nat)
      returns (l': File, c': File)
    requires WellFormedCode(code) && f in code && i + 1 < |code[f].blocks| && fuel > 0
    requires code[f].blocks[i] == Block(Does(uses, defs, i + 1), false, {}, {})
    ensures var e := m.plain(f, i, Restrict(View(l, c, code[f].locals), uses), w);
      && SameReturn(TargetRun(p, code, m, map[], f, i, l, c, w, fuel),
        TargetRun(p, code, m, map[], f, i + 1, l', c', e.world, fuel - 1))
      && (forall r :: At(l', r) == if r in defs && r in code[f].locals then At(e.registers, r) else At(l, r))
      && (forall r :: At(c', r) == if r in defs && r !in code[f].locals then At(e.registers, r) else At(c, r))
  {
    hide WellFormedCode, TargetRun, Restrict, TargetInvoke;
    BlockAt(code, f, i);
    TargetRunUnfolds(p, code, m, map[], f, i, l, c, w, fuel);
    var t := code[f];
    var mine := t.locals - ({} + {});
    assert mine == t.locals;
    SameView(l, c, t.locals, uses);
    var e := m.plain(f, i, Restrict(View(l, Override(c, l, {}), mine), uses), w);
    c' := Override(Override(c, l, {}), e.registers, defs - mine);
    l' := Override(Override(l, e.registers, defs * mine), c', {});
  }

  lemma SameView(l: File, c: File, locals: set<Reg>, uses: set<Reg>)
    ensures Restrict(View(l, Override(c, l, {}), locals), uses) == Restrict(View(l, c, locals), uses)
  {
    AgreeRestrict(View(l, Override(c, l, {}), locals), View(l, c, locals), uses);
  }

  lemma TargetCalls(p: Program, code: Code, m: Meaning, f: Name, i: nat, g: Name, before: set<Reg>, after: set<Reg>,
      l: File, c: File, w: World, fuel: nat)
    requires WellFormedCode(code) && f in code && i + 1 < |code[f].blocks| && fuel > 0
    requires code[f].blocks[i] == Block(CallTo(g, i + 1), false, before, after)
    ensures var c1 := Override(c, l, before);
      var back := TargetInvoke(p, code, m, map[], g, c1, m.hook(f, i, Restrict(c1, {}), w), fuel - 1);
      back.Returned? ==>
        SameReturn(TargetRun(p, code, m, map[], f, i, l, c, w, fuel),
                   TargetRun(p, code, m, map[], f, i + 1, Override(l, back.file, after), back.file, back.world,
                     fuel - 1))
  {
    hide WellFormedCode, TargetRun, Restrict, TargetInvoke, Override, View;
    BlockAt(code, f, i);
    TargetRunUnfolds(p, code, m, map[], f, i, l, c, w, fuel);
  }

  lemma TargetLeaves(p: Program, code: Code, m: Meaning, f: Name, i: nat, before: set<Reg>, l: File, c: File, w: World,
      fuel: nat)
    requires WellFormedCode(code) && f in code && i < |code[f].blocks| && fuel > 0
    requires code[f].blocks[i] == Block(LEAVE, false, before, {})
    ensures var o := TargetRun(p, code, m, map[], f, i, l, c, w, fuel);
      o.Returned? && o.file == Override(c, l, before) && o.world == w
  {
    hide WellFormedCode, TargetRun, Restrict, TargetInvoke, Override, View;
    BlockAt(code, f, i);
    TargetRunUnfolds(p, code, m, map[], f, i, l, c, w, fuel);
  }

  lemma TargetInvokeLeaves(p: Program, code: Code, m: Meaning, g: Name, c: File, w: World, fuel: nat, w': World, r: Reg,
      v: Value)
    requires WellFormedCode(code) && g in code && fuel > 0 && |code[g].blocks| > 0
    requires Leaves(TargetRun(p, code, m, map[], g, 0, Restrict(c, code[g].loaded), c, w, fuel - 1), w', r, v)
    requires r in p.localised
    ensures Leaves(TargetInvoke(p, code, m, map[], g, c, w, fuel), w', r, v)
  {
    hide WellFormedCode, TargetRun, Override, Restored, TargetInvoke, Restrict;
    TargetInvokeUnfolds(p, code, m, map[], g, c, w, fuel);
  }

  // ------------------------------------------------------------ shorthands

  const START: World := World(map[], 0, 0)

  function Noted(v: Value): World {
    World(map[0 := v], 0, 0)
  }

  lemma ShortLine(n: Node)
    requires OnLine(n, 0)
    ensures Line([n, LEAVE])
  {
  }

  lemma LongLine(n: Node, n': Node)
    requires OnLine(n, 0) && OnLine(n', 1)
    ensures Line([n, n', LEAVE])
  {
    hide OnLine;
  }

  lemma LongestLine(n: Node, n': Node, n'': Node)
    requires OnLine(n, 0) && OnLine(n', 1) && OnLine(n'', 2)
    ensures Line([n, n', n'', LEAVE])
  {
    hide OnLine;
  }

  function CalleeSet(n: Node): set<Name> {
    if n.kind == CALL then {n.callee} else {}
  }

  lemma CalleesShort(n: Node)
    ensures CalleesOf([n, LEAVE]) == CalleeSet(n)
  {
    assert [n, LEAVE][0] == n;
  }

  lemma CalleesLong(n: Node, n': Node)
    ensures CalleesOf([n, n', LEAVE]) == CalleeSet(n) + CalleeSet(n')
  {
    assert [n, n', LEAVE][0] == n && [n, n', LEAVE][1] == n';
  }

  lemma CalleesLongest(n: Node, n': Node, n'': Node)
    ensures CalleesOf([n, n', n'', LEAVE]) == CalleeSet(n) + CalleeSet(n') + CalleeSet(n'')
  {
    assert [n, n', n'', LEAVE][0] == n && [n, n', n'', LEAVE][1] == n' && [n, n', n'', LEAVE][2] == n'';
  }

  lemma OneWide(r: Reg)
    requires !r.Cr?
    ensures Widen({r}) == {r}
  {
    assert Widen({r}) == {r};
  }

  lemma NoClobbers(p: Program, clobbers: RegSets)
    requires Lines(p) && clobbers.Keys == p.functions.Keys
    requires forall f | f in p.functions :: p.functions[f].written == {} && clobbers[f] == {}
    ensures IsLeastClobbers(p, NORETURN_IMPORTS, clobbers)
  {
    hide Line;
    forall f | f in p.functions ensures CalleesLeave(p, NORETURN_IMPORTS, clobbers, f) == {} {
    }
  }

  lemma RestrictAt(c: File, s: set<Reg>, r: Reg)
    ensures At(Restrict(c, s), r) == if r in s then At(c, r) else 0
  {
  }

  /** Where nothing is left clobbered, only a function's own reads ask for a register back. */
  lemma NeedsOwn(p: Program, s: Solution, f: Name, i: nat, r: Reg)
    requires f in p.functions && f in s.livebefore && i < |p.functions[f].nodes|
    requires forall g | g in s.clobbers :: s.clobbers[g] == {}
    ensures Needed(p, s, f, i, r) <==> r in p.localised && Volatile(r) && ReadAfter(p, s, f, i, r)
  {
    hide ReadAfter, LiveAfter;
  }

  lemma NotKept(p: Program, r: Reg)
    requires !(r.Cr? && r.field in {2, 3, 4})
    ensures forall g :: r in Restored(p, g) <==> g in p.functions && r in p.functions[g].saved
  {
  }

  /** The source's statements, with nothing stored or loaded around them. */
  ghost predicate Bare(t: Target, nodes: seq<Node>) {
    |t.blocks| == |nodes| && forall i | 0 <= i < |nodes| :: t.blocks[i] == Block(nodes[i], false, {}, {})
  }

  lemma NoneWide()
    ensures Widen({}) == {}
  {
  }

  lemma ViewAt(l: File, c: File, locals: set<Reg>, r: Reg)
    ensures At(View(l, c, locals), r) == if r in locals then At(l, r) else At(c, r)
  {
  }

  /** Programs that write no saveable register and call nothing indirectly keep the conventions. */
  lemma LinesConventional(p: Program, m: Meaning, s: Solution)
    requires Lines(p) && WellFormed(p) && s.noreturn == NORETURN_IMPORTS
    requires forall f | f in p.functions :: WritesFound(p.functions[f].nodes, p.functions[f].written)
    requires forall f, i, operands, w :: m.target(f, i, operands, w) == Named("nowhere")
    requires Named("nowhere") !in p.functions && s.livein.Keys == s.ret.Keys == s.clobbers.Keys == p.functions.Keys
      && s.indirectRet == {}
    ensures Conventional(p, m, s)
  {
    hide WellFormed, WritesFound, SwitchesFrame, NeverBack;
    LinesReturn(p, s);
  }

  lemma LinesReturn(p: Program, s: Solution)
    requires s.noreturn == NORETURN_IMPORTS
    ensures HelpersReturn(p, s)
  {
  }

  lemma WritesNone(nodes: seq<Node>)
    requires forall i, r | 0 <= i < |nodes| && r in nodes[i].writes :: !Saveable(r)
    ensures WritesFound(nodes, {})
  {
    hide Reachable;
  }

  /** setter sets the register to one; a reader notes the value of the register in memory. */
  function SetAndNote(setter: Name, r: Reg): Meaning {
    Meaning(
      (f: Name, i: nat, c: File, w: World) => if f == setter then Effect(map[r := 1], w)
        else Effect(map[], Noted(At(c, r))),
      (f: Name, i: nat, c: File, w: World) => 0,
      (f: Name, i: nat, c: File, w: World) => w,
      (f: Name, i: nat, c: File, w: World) => Named("nowhere"),
      (f: Name, i: nat, c: File, w: World) => w,
      (g: Name, c: File, w: World) => HostStops(w))
  }

  lemma ConvertedHas(p: Program, targets: seq<Name>, s: Solution, code: Code)
    requires Converted(p, targets, true, s, code)
    ensures SolvesTo(p, targets, true, s) && IsTransformedProgram(p, s, code) && WellFormedCode(code)
  {
  }

  /** Called from an empty context, the converted function shows something else. */
  ghost predicate ToldApart(p: Program, code: Code, m: Meaning, f: Name, fuel: nat) {
    WellFormed(p) && WellFormedCode(code)
      && !SameShow(Invoke(p, m, map[], f, map[], START, fuel), TargetInvoke(p, code, m, map[], f, map[], START, fuel))
  }

  lemma Told(p: Program, code: Code, m: Meaning, f: Name, fuel: nat, r: Reg, v: Value, left: Value, v': Value,
      left': Value)
    requires WellFormed(p) && WellFormedCode(code) && v != v'
    requires Leaves(Invoke(p, m, map[], f, map[], START, fuel), Noted(v), r, left)
    requires Leaves(TargetInvoke(p, code, m, map[], f, map[], START, fuel), Noted(v'), r, left')
    ensures ToldApart(p, code, m, f, fuel)
  {
    hide WellFormed, WellFormedCode, Invoke, TargetInvoke;
    assert Noted(v).memory[0] != Noted(v').memory[0];
  }

  lemma LeavesFrom(p: Program, noreturn: set<Name>, clobbers: RegSets, f: Name, g: Name, r: Reg)
    requires f in p.functions && g in CalleesOf(p.functions[f].nodes) && g in p.functions && g in clobbers
      && g !in noreturn
    requires r in clobbers[g]
    ensures r in CalleesLeave(p, noreturn, clobbers, f)
  {
  }
}
