/** The whole-program fixed point of scripts/register_locals.py: live-in sets and
    context returns, coupled through every call. */
module Analysis {
  import opened Registers
  import opened Programs
  import opened Liveness
  import opened CallGraph

  /** What the analysis leaves on the functions and on the program. */
  datatype Solution = Solution(
    noreturn: set<Name>,
    clobbers: RegSets,
    livein: RegSets,
    ret: RegSets,
    livebefore: map<Name, Masks>,
    indirectLivein: set<Reg>,
    indirectRet: set<Reg>)

  function Lookup(sets: RegSets, name: Name): set<Reg> {
    if name in sets then sets[name] else {}
  }

  function CalleeClobbers(noreturn: set<Name>, clobbers: RegSets, name: Name): set<Reg> {
    if IsSaveRestore(name) || name in noreturn then {} else Lookup(clobbers, name)
  }

  function CalleeLivein(p: Program, livein: RegSets, name: Name): set<Reg> {
    if Dropped(p, name) then
      if name.SaveGprLr? then {R(12)} else {}
    else
      Lookup(p.host, name) + Lookup(livein, name)
  }

  function CalleeRet(p: Program, ret: RegSets, name: Name): set<Reg> {
    if Dropped(p, name) then {} else Lookup(ret, name)
  }

  // ------------------------------------------------------------ equations of one function

  /** What a node reads; local leaves out what its callee reads. */
  function Gen(p: Program, f: Name, livein: RegSets, ret: RegSets, indirectLivein: set<Reg>, local: bool,
      n: Node): set<Reg> {
    match n.kind
    case CALL => n.site + if local then {} else CalleeLivein(p, livein, n.callee)
    case ICALL => n.uses + n.site + if local then {} else indirectLivein
    case EXIT => Lookup(ret, f)
    case _ => n.uses
  }

  function Kill(p: Program, ret: RegSets, indirectRet: set<Reg>, n: Node): set<Reg> {
    match n.kind
    case CALL => CalleeRet(p, ret, n.callee)
    case ICALL => indirectRet
    case EXIT => {}
    case _ => n.defs
  }

  function Gens(p: Program, f: Name, livein: RegSets, ret: RegSets, indirectLivein: set<Reg>,
      local: bool): (masks: Masks)
    requires f in p.functions
    ensures |masks| == |p.functions[f].nodes|
  {
    var nodes := p.functions[f].nodes;
    seq(|nodes|, i requires 0 <= i < |nodes| => Gen(p, f, livein, ret, indirectLivein, local, nodes[i]))
  }

  function Kills(p: Program, f: Name, ret: RegSets, indirectRet: set<Reg>): (masks: Masks)
    requires f in p.functions
    ensures |masks| == |p.functions[f].nodes|
  {
    var nodes := p.functions[f].nodes;
    seq(|nodes|, i requires 0 <= i < |nodes| => Kill(p, ret, indirectRet, nodes[i]))
  }

  /** The function's sets are the least solution for the callees' current sets. */
  ghost predicate Settled(p: Program, s: Solution, f: Name) {
    && f in p.functions && f in s.livebefore && f in s.livein
    && p.functions[f].nodes != []
    && IsLeastSolution(p.functions[f].nodes,
        Gens(p, f, s.livein, s.ret, s.indirectLivein, false), Kills(p, f, s.ret, s.indirectRet), s.livebefore[f])
    && s.livein[f] == s.livebefore[f][0] * p.localised
  }

  /** r is read by the caller itself, after its node i, before it overwrites it. */
  ghost predicate ReadAfter(p: Program, s: Solution, f: Name, i: nat, r: Reg)
    requires f in p.functions && i < |p.functions[f].nodes|
  {
    var nodes := p.functions[f].nodes;
    exists t: nat :: t in nodes[i].succ &&
      Live(nodes, Gens(p, f, s.livein, s.ret, {}, true), Kills(p, f, s.ret, s.indirectRet), t, r)
  }

  /** What is live after node i. */
  function LiveAfter(p: Program, s: Solution, f: Name, i: nat): set<Reg>
    requires f in p.functions && f in s.livebefore && i < |p.functions[f].nodes|
  {
    Out(p.functions[f].nodes[i].succ, s.livebefore[f])
  }

  /** The registers a call must bring back through the context: volatile ones its
      caller reads, and nonvolatile ones the callee leaves changed that are live. */
  ghost predicate Needed(p: Program, s: Solution, f: Name, i: nat, r: Reg)
    requires f in p.functions && f in s.livebefore && i < |p.functions[f].nodes|
  {
    var n := p.functions[f].nodes[i];
    && r in p.localised
    && ((Volatile(r) && ReadAfter(p, s, f, i, r)) ||
        (n.kind == CALL && r in CalleeClobbers(s.noreturn, s.clobbers, n.callee) && r in LiveAfter(p, s, f, i)))
  }

  ghost predicate Supplied(p: Program, s: Solution, newRet: RegSets, newIndirectRet: set<Reg>, f: Name, i: nat)
    requires f in p.functions && f in s.livebefore && i < |p.functions[f].nodes|
  {
    var n := p.functions[f].nodes[i];
    && (n.kind == CALL && n.callee !in s.noreturn ==>
        forall r | Needed(p, s, f, i, r) :: r in Lookup(newRet, n.callee))
    && (n.kind == ICALL ==> forall r | Needed(p, s, f, i, r) :: r in newIndirectRet)
  }

  /** Only what its convention lets it change, or what it clobbers, is asked back of a callee. */
  predicate MayReturn(p: Program, s: Solution, name: Name, r: Reg) {
    r in p.localised && (Volatile(r) || r in CalleeClobbers(s.noreturn, s.clobbers, name))
  }

  ghost predicate RetsBounded(p: Program, s: Solution, rets: RegSets) {
    forall f, r | f in rets && r in rets[f] :: MayReturn(p, s, f, r)
  }

  /** The standard convention an indirect call is trusted to follow: r12 is all it reads. */
  function IndirectReads(p: Program): set<Reg> {
    {R(12)} * p.localised
  }

  /** What solve returns. */
  ghost predicate Solved(p: Program, s: Solution) {
    && IsNoreturn(p, s.noreturn)
    && IsLeastClobbers(p, s.noreturn, s.clobbers)
    && s.livein.Keys == s.ret.Keys == s.livebefore.Keys == p.functions.Keys
    && (forall f | f in p.functions :: Settled(p, s, f))
    && RetsBounded(p, s, s.ret)
    && (forall r | r in s.indirectRet :: Volatile(r) && r in p.localised)
    && forall f, i | f in p.functions && 0 <= i < |p.functions[f].nodes| ::
        CallSupplied(p, s, f, i)
  }

  ghost predicate CallSupplied(p: Program, s: Solution, f: Name, i: nat)
    requires f in p.functions && f in s.livebefore && i < |p.functions[f].nodes|
  {
    var n := p.functions[f].nodes[i];
    n.kind == CALL && n.callee in p.functions && n.callee !in s.noreturn ==>
      forall r | Needed(p, s, f, i, r) :: r in Lookup(s.ret, n.callee)
  }

  /** The registers some target of an indirect call, or host code in its place, may read. */
  ghost predicate IsIndirectUnion(p: Program, livein: RegSets, targets: seq<Name>, union: set<Reg>) {
    forall r :: r in union <==> exists t :: t in targets && t in p.functions && ReadsAtEntry(p, livein, t, r)
  }

  predicate ReadsAtEntry(p: Program, livein: RegSets, t: Name, r: Reg) {
    r in Lookup(livein, t) || (r in Lookup(p.host, t) && r in p.localised)
  }

  /** What the two settings for indirect calls add: the convention, or every target. */
  ghost predicate IndirectSolved(p: Program, s: Solution, targets: seq<Name>, abiIndirect: bool) {
    if abiIndirect then
      s.indirectLivein == IndirectReads(p) && s.indirectRet == {}
    else
      && IsIndirectUnion(p, s.livein, targets, s.indirectLivein)
      && (forall t | t in targets && t in p.functions :: s.indirectRet <= Lookup(s.ret, t))
      && forall f, i, r | f in p.functions && 0 <= i < |p.functions[f].nodes|
        && p.functions[f].nodes[i].kind == ICALL ::
          f in s.livebefore && (Needed(p, s, f, i, r) ==> r in s.indirectRet)
  }

  // ------------------------------------------------------------ what asks for a return

  ghost predicate SettledExcept(p: Program, s: Solution, queued: set<Name>) {
    forall f | f in p.functions && f !in queued :: Settled(p, s, f)
  }

  /** The sets as a round of solve sees them when it looks at what the calls need. */
  ghost predicate Round(p: Program, s: Solution) {
    && IsNoreturn(p, s.noreturn)
    && IsLeastClobbers(p, s.noreturn, s.clobbers)
    && s.livein.Keys == s.ret.Keys == s.livebefore.Keys == p.functions.Keys
    && SettledExcept(p, s, {})
  }

  ghost predicate Grows(a: RegSets, b: RegSets) {
    forall f :: Lookup(a, f) <= Lookup(b, f)
  }

  /** The call at node i needs r back, and asks its callee or the indirect targets for it. */
  ghost predicate Asks(p: Program, s: Solution, f: Name, i: nat, r: Reg) {
    f in p.functions && f in s.livebefore && i < |p.functions[f].nodes| && Needed(p, s, f, i, r)
  }

  ghost predicate AsksDirectly(p: Program, s: Solution, f: Name, i: nat, g: Name, r: Reg) {
    Asks(p, s, f, i, r) && p.functions[f].nodes[i].kind == CALL && p.functions[f].nodes[i].callee == g
      && g !in s.noreturn
  }

  ghost predicate AsksIndirectly(p: Program, s: Solution, f: Name, i: nat, r: Reg) {
    Asks(p, s, f, i, r) && p.functions[f].nodes[i].kind == ICALL
  }

  /** No round that starts within these sets asks for anything outside them. */
  ghost predicate ClosedUnderAsking(p: Program, targets: seq<Name>, abiIndirect: bool, bound: RegSets,
      indirect: set<Reg>) {
    && (forall s, f, i, g, r | Round(p, s) && Grows(s.ret, bound) && s.indirectRet <= indirect
      && AsksDirectly(p, s, f, i, g, r)
          && g in p.functions :: r in Lookup(bound, g))
    && (!abiIndirect ==>
        && (forall s, f, i, r | Round(p, s) && Grows(s.ret, bound) && s.indirectRet <= indirect
          && AsksIndirectly(p, s, f, i, r) ::
            r in indirect)
        && forall t | t in targets && t in p.functions :: indirect <= Lookup(bound, t))
  }

  /** Every returned register was asked for in some round, by a call that needed it with the
      sets of that round: the returned sets lie within all sets closed under asking. */
  ghost predicate RetsFounded(p: Program, targets: seq<Name>, abiIndirect: bool, ret: RegSets, indirectRet: set<Reg>) {
    forall bound, indirect | ClosedUnderAsking(p, targets, abiIndirect, bound, indirect) ::
      Grows(ret, bound) && indirectRet <= indirect
  }

  /** All that solve says of what it returns. */
  ghost predicate SolvesTo(p: Program, targets: seq<Name>, abiIndirect: bool, s: Solution) {
    Solved(p, s) && IndirectSolved(p, s, targets, abiIndirect)
      && RetsFounded(p, targets, abiIndirect, s.ret, s.indirectRet)
  }

  // ------------------------------------------------------------ the solver

  lemma GraphOf(p: Program, f: Name, livein: RegSets, ret: RegSets, indirectLivein: set<Reg>, indirectRet: set<Reg>,
      local: bool)
    requires WellFormed(p) && f in p.functions
    ensures Graph(p.functions[f].nodes, Gens(p, f, livein, ret, indirectLivein, local), Kills(p, f, ret, indirectRet))
  {
    var nodes := p.functions[f].nodes;
    assert WellFormedNodes(nodes);
    forall i, s: nat | 0 <= i < |nodes| && s in nodes[i].succ ensures s < |nodes| {
      assert WellFormedNode(nodes, nodes[i]);
    }
  }

  function Names(s: seq<Name>): set<Name> {
    set f | f in s
  }

  lemma NamesAppend(s: seq<Name>, f: Name)
    ensures Names(s + [f]) == Names(s) + {f}
  {
  }

  lemma InNames(s: seq<Name>, k: nat)
    requires k < |s|
    ensures s[k] in Names(s)
  {
  }

  lemma NamesOfNone()
    ensures Names([]) == {}
  {
  }

  lemma SettledFewer(p: Program, s: Solution, queued: set<Name>, more: set<Name>)
    requires p.functions.Keys <= more || (SettledExcept(p, s, queued) && queued <= more)
    ensures SettledExcept(p, s, more)
  {
    hide Settled;
  }

  /** Storing one function's result leaves every other function as it was. */
  lemma AfterLiveness(p: Program, s: Solution, f: Name, live: Masks, queued: set<Name>)
    requires SettledExcept(p, s, queued + {f}) && f in p.functions && p.functions[f].nodes != []
    requires IsLeastSolution(p.functions[f].nodes,
      Gens(p, f, s.livein, s.ret, s.indirectLivein, false), Kills(p, f, s.ret, s.indirectRet), live)
    ensures var next := s.(livebefore := s.livebefore[f := live]);
      && SettledExcept(p, next, queued + {f})
      && (f in s.livein && s.livein[f] == live[0] * p.localised ==> SettledExcept(p, next, queued))
  {
    hide IsLeastSolution, Gens, Kills;
  }

  /** A new live-in set unsettles only the callers, and settles the function unless it calls itself. */
  lemma AfterLivein(p: Program, s: Solution, f: Name, queued: set<Name>)
    requires SettledExcept(p, s, queued + {f})
    requires f in p.functions && p.functions[f].nodes != [] && f in s.livebefore
    requires IsLeastSolution(p.functions[f].nodes,
      Gens(p, f, s.livein, s.ret, s.indirectLivein, false), Kills(p, f, s.ret, s.indirectRet), s.livebefore[f])
    requires |s.livebefore[f]| == |p.functions[f].nodes|
    requires forall g | g in p.functions && f in CalleesOf(p.functions[g].nodes) :: g in queued
    ensures SettledExcept(p, s.(livein := s.livein[f := s.livebefore[f][0] * p.localised]), queued)
  {
    LeastLength(p.functions[f].nodes,
      Gens(p, f, s.livein, s.ret, s.indirectLivein, false), Kills(p, f, s.ret, s.indirectRet), s.livebefore[f]);
    hide IsLeastSolution, Gen;
    var value := s.livebefore[f][0] * p.localised;
    var next := s.(livein := s.livein[f := value]);
    forall g | g in p.functions && g !in queued ensures Settled(p, next, g) {
      SameGens(p, s, g, f, value);
    }
  }

  /** A function's equations only mention the live-in sets of the functions it calls. */
  lemma SameGens(p: Program, s: Solution, g: Name, f: Name, value: set<Reg>)
    requires g in p.functions && f !in CalleesOf(p.functions[g].nodes)
    ensures Gens(p, g, s.livein[f := value], s.ret, s.indirectLivein, false)
      == Gens(p, g, s.livein, s.ret, s.indirectLivein, false)
  {
    var nodes := p.functions[g].nodes;
    forall i | 0 <= i < |nodes|
      ensures Gen(p, g, s.livein[f := value], s.ret, s.indirectLivein, false, nodes[i]) ==
              Gen(p, g, s.livein, s.ret, s.indirectLivein, false, nodes[i])
    {
      if nodes[i].kind == CALL {
        assert nodes[i].callee in CalleesOf(nodes);
      }
    }
  }

  /** What the loop over a function's calls computes at one of them. */
  function NeedSet(p: Program, s: Solution, f: Name, n: Node, own: Masks): set<Reg>
    requires f in s.livebefore
  {
    var changed := if n.kind == CALL then CalleeClobbers(s.noreturn, s.clobbers, n.callee) * p.localised else {};
    (set r | r in Out(n.succ, own) && Volatile(r) && r in p.localised) + Out(n.succ, s.livebefore[f]) * changed
  }

  lemma NeedIs(p: Program, s: Solution, f: Name, i: nat, own: Masks)
    requires WellFormed(p) && f in p.functions && f in s.livebefore && i < |p.functions[f].nodes|
    requires p.functions[f].nodes[i].kind in {CALL, ICALL}
    requires IsLeastSolution(p.functions[f].nodes,
      Gens(p, f, s.livein, s.ret, {}, true), Kills(p, f, s.ret, s.indirectRet), own)
    ensures forall r :: r in NeedSet(p, s, f, p.functions[f].nodes[i], own) <==> Needed(p, s, f, i, r)
  {
    hide ReadAfter, IsLeastSolution, WellFormed, Out, Gens, Kills;
    forall r ensures r in Out(p.functions[f].nodes[i].succ, own) <==> ReadAfter(p, s, f, i, r) {
      OwnReads(p, s, f, i, own, r);
    }
  }

  lemma OwnReads(p: Program, s: Solution, f: Name, i: nat, own: Masks, r: Reg)
    requires WellFormed(p) && f in p.functions && i < |p.functions[f].nodes|
    requires IsLeastSolution(p.functions[f].nodes,
      Gens(p, f, s.livein, s.ret, {}, true), Kills(p, f, s.ret, s.indirectRet), own)
    ensures r in Out(p.functions[f].nodes[i].succ, own) <==> ReadAfter(p, s, f, i, r)
  {
    var nodes := p.functions[f].nodes;
    var gen, kill := Gens(p, f, s.livein, s.ret, {}, true), Kills(p, f, s.ret, s.indirectRet);
    GraphOf(p, f, s.livein, s.ret, {}, s.indirectRet, true);
    hide Gens, Kills, WellFormed, Live, IsLeastSolution;
    assert |own| == |nodes| by { LeastLength(nodes, gen, kill, own); }
    if r in Out(nodes[i].succ, own) {
      var t: nat :| t in nodes[i].succ && t < |own| && r in own[t];
      LeastSolutionIsLive(nodes, gen, kill, own, t, r);
    }
    if ReadAfter(p, s, f, i, r) {
      var t: nat :| t in nodes[i].succ && Live(nodes, gen, kill, t, r);
      LeastSolutionIsLive(nodes, gen, kill, own, t, r);
    }
  }

  lemma LeastLength(nodes: seq<Node>, gen: Masks, kill: Masks, live: Masks)
    requires |gen| == |kill| == |nodes| && IsLeastSolution(nodes, gen, kill, live)
    ensures |live| == |nodes|
  {
  }

  ghost predicate AllSupplied(p: Program, s: Solution, newRet: RegSets, newIndirectRet: set<Reg>, f: Name, k: nat)
    requires f in p.functions && f in s.livebefore && k <= |p.functions[f].nodes|
  {
    forall i | 0 <= i < k :: Supplied(p, s, newRet, newIndirectRet, f, i)
  }

  ghost predicate NeedsBounded(p: Program, s: Solution, newRet: RegSets, newIndirectRet: set<Reg>) {
    && RetsBounded(p, s, newRet)
    && forall r | r in newIndirectRet :: Volatile(r) && r in p.localised
  }

  /** Whatever was collected some call of the round asked for. */
  ghost predicate AskedOnly(p: Program, s: Solution, newRet: RegSets, newIndirectRet: set<Reg>) {
    && (forall g, r | r in Lookup(newRet, g) :: exists f, i :: AsksDirectly(p, s, f, i, g, r))
    && forall r | r in newIndirectRet && r !in s.indirectRet :: exists f, i :: AsksIndirectly(p, s, f, i, r)
  }

  lemma SuppliedMonotone(p: Program, s: Solution, a: RegSets, ai: set<Reg>, b: RegSets, bi: set<Reg>, f: Name, k: nat)
    requires f in p.functions && f in s.livebefore && k <= |p.functions[f].nodes|
    requires AllSupplied(p, s, a, ai, f, k) && Grows(a, b) && ai <= bi
    ensures AllSupplied(p, s, b, bi, f, k)
  {
    hide Needed;
    forall i | 0 <= i < k ensures Supplied(p, s, b, bi, f, i) {
      assert Supplied(p, s, a, ai, f, i);
    }
  }

  lemma Reflexive(a: RegSets)
    ensures Grows(a, a)
  {
  }

  lemma AllOfNone(p: Program, s: Solution, a: RegSets, ai: set<Reg>, f: Name)
    requires f in p.functions && f in s.livebefore
    ensures AllSupplied(p, s, a, ai, f, 0)
  {
  }

  lemma OtherSupplied(p: Program, s: Solution, a: RegSets, ai: set<Reg>, f: Name, i: nat)
    requires f in p.functions && f in s.livebefore && i < |p.functions[f].nodes|
    requires p.functions[f].nodes[i].kind !in {CALL, ICALL}
    requires AllSupplied(p, s, a, ai, f, i)
    ensures AllSupplied(p, s, a, ai, f, i + 1)
  {
    hide Needed;
  }

  /** Asking for what one call needs, as solve does: of its callee unless it never
      returns, or of every indirect target. */
  function Asked(p: Program, s: Solution, n: Node, need: set<Reg>, asked: RegSets): RegSets {
    if need != {} && n.kind == CALL && n.callee !in s.noreturn then
      asked[n.callee := Lookup(asked, n.callee) + need]
    else asked
  }

  function AskedIndirect(n: Node, need: set<Reg>, asked: set<Reg>): set<Reg> {
    if n.kind == ICALL then asked + need else asked
  }

  lemma AskSupplies(p: Program, s: Solution, f: Name, i: nat, need: set<Reg>, first: RegSets, asked: RegSets,
      askedIndirect: set<Reg>)
    requires f in p.functions && f in s.livebefore && i < |p.functions[f].nodes|
    requires forall r :: r in need <==> Needed(p, s, f, i, r)
    requires NeedsBounded(p, s, asked, askedIndirect) && Grows(first, asked) && AskedOnly(p, s, asked, askedIndirect)
    requires AllSupplied(p, s, asked, askedIndirect, f, i)
    ensures var n := p.functions[f].nodes[i];
      var newRet, newIndirect := Asked(p, s, n, need, asked), AskedIndirect(n, need, askedIndirect);
      && NeedsBounded(p, s, newRet, newIndirect) && Grows(first, newRet) && AskedOnly(p, s, newRet, newIndirect)
      && AllSupplied(p, s, newRet, newIndirect, f, i + 1)
  {
    var n := p.functions[f].nodes[i];
    var newRet, newIndirect := Asked(p, s, n, need, asked), AskedIndirect(n, need, askedIndirect);
    assert Grows(asked, newRet);
    SuppliedMonotone(p, s, asked, askedIndirect, newRet, newIndirect, f, i);
    NeedBounded(p, s, f, i, need);
    NeedAsked(p, s, f, i, need, asked, askedIndirect);
    hide Needed, AskedOnly;
    assert Supplied(p, s, newRet, newIndirect, f, i);
  }

  lemma NeedAsked(p: Program, s: Solution, f: Name, i: nat, need: set<Reg>, asked: RegSets, askedIndirect: set<Reg>)
    requires f in p.functions && f in s.livebefore && i < |p.functions[f].nodes|
    requires forall r :: r in need <==> Needed(p, s, f, i, r)
    requires AskedOnly(p, s, asked, askedIndirect)
    ensures var n := p.functions[f].nodes[i];
      AskedOnly(p, s, Asked(p, s, n, need, asked), AskedIndirect(n, need, askedIndirect))
  {
    hide Needed;
    var n := p.functions[f].nodes[i];
    var newRet, newIndirect := Asked(p, s, n, need, asked), AskedIndirect(n, need, askedIndirect);
    forall g, r | r in Lookup(newRet, g) ensures exists f, i :: AsksDirectly(p, s, f, i, g, r) {
      if r !in Lookup(asked, g) {
        assert AsksDirectly(p, s, f, i, g, r);
      }
    }
    forall r | r in newIndirect && r !in s.indirectRet ensures exists f, i :: AsksIndirectly(p, s, f, i, r) {
      if r !in askedIndirect {
        assert AsksIndirectly(p, s, f, i, r);
      }
    }
  }

  lemma NeedBounded(p: Program, s: Solution, f: Name, i: nat, need: set<Reg>)
    requires f in p.functions && f in s.livebefore && i < |p.functions[f].nodes|
    requires forall r :: r in need <==> Needed(p, s, f, i, r)
    ensures var n := p.functions[f].nodes[i];
      && (n.kind == CALL ==> forall r | r in need :: MayReturn(p, s, n.callee, r))
      && (n.kind == ICALL ==> forall r | r in need :: Volatile(r) && r in p.localised)
  {
  }

  ghost predicate EverySupplied(p: Program, s: Solution, newRet: RegSets, newIndirectRet: set<Reg>, done: set<Name>) {
    forall f | f in done && f in p.functions && f in s.livebefore ::
      AllSupplied(p, s, newRet, newIndirectRet, f, |p.functions[f].nodes|)
  }

  lemma EveryMonotone(p: Program, s: Solution, a: RegSets, ai: set<Reg>, b: RegSets, bi: set<Reg>,
      done: set<Name>, f: Name)
    requires EverySupplied(p, s, a, ai, done) && Grows(a, b) && ai <= bi
    requires f in p.functions && f in s.livebefore && AllSupplied(p, s, b, bi, f, |p.functions[f].nodes|)
    ensures EverySupplied(p, s, b, bi, done + {f})
  {
    hide AllSupplied, Grows;
    forall g | g in done && g in p.functions && g in s.livebefore
      ensures AllSupplied(p, s, b, bi, g, |p.functions[g].nodes|)
    {
      SuppliedMonotone(p, s, a, ai, b, bi, g, |p.functions[g].nodes|);
    }
  }

  lemma RetsStayBounded(p: Program, s: Solution, was: RegSets, wasIndirect: set<Reg>,
                        newRet: RegSets, newIndirect: set<Reg>, rets: RegSets, indirect: set<Reg>)
    requires NeedsBounded(p, s, was, wasIndirect) && NeedsBounded(p, s, newRet, newIndirect)
    requires indirect <= newIndirect && was.Keys == rets.Keys
    requires forall f | f in rets :: rets[f] <= was[f] + Lookup(newRet, f) + indirect
    ensures NeedsBounded(p, s, rets, indirect)
  {
    hide CalleeClobbers;
  }

  /** One more round asks for nothing outside any sets closed under asking. */
  lemma RetsStayFounded(p: Program, targets: seq<Name>, abiIndirect: bool, s: Solution, newRet: RegSets,
      newIndirect: set<Reg>,
                        rets: RegSets, indirect: set<Reg>)
    requires Round(p, s) && RetsFounded(p, targets, abiIndirect, s.ret, s.indirectRet)
      && AskedOnly(p, s, newRet, newIndirect)
    requires rets.Keys == s.ret.Keys && indirect == if abiIndirect then {} else newIndirect
    requires forall f | f in rets :: rets[f] <= s.ret[f] + Lookup(newRet, f) + indirect
    requires forall f | f in rets && f !in targets :: rets[f] <= s.ret[f] + Lookup(newRet, f)
    ensures RetsFounded(p, targets, abiIndirect, rets, indirect)
  {
    hide IsNoreturn, IsLeastClobbers, SettledExcept, AsksDirectly, AsksIndirectly;
    forall bound, within | ClosedUnderAsking(p, targets, abiIndirect, bound, within)
      ensures Grows(rets, bound) && indirect <= within
    {
      StaysWithinBound(p, targets, abiIndirect, s, newRet, newIndirect, bound, within);
    }
  }

  lemma StaysWithinBound(p: Program, targets: seq<Name>, abiIndirect: bool, s: Solution, newRet: RegSets,
      newIndirect: set<Reg>,
                         bound: RegSets, within: set<Reg>)
    requires Round(p, s) && Grows(s.ret, bound) && s.indirectRet <= within && AskedOnly(p, s, newRet, newIndirect)
    requires ClosedUnderAsking(p, targets, abiIndirect, bound, within)
    ensures forall g | g in p.functions :: Lookup(newRet, g) <= Lookup(bound, g)
    ensures !abiIndirect ==> newIndirect <= within && forall t | t in targets && t in p.functions ::
      newIndirect <= Lookup(bound, t)
  {
    hide Round, Grows, AsksDirectly, AsksIndirectly;
    forall g, r | g in p.functions && r in Lookup(newRet, g) ensures r in Lookup(bound, g) {
      var f, i :| AsksDirectly(p, s, f, i, g, r);
    }
    forall r | r in newIndirect && !abiIndirect ensures r in within {
      if r !in s.indirectRet {
        var f, i :| AsksIndirectly(p, s, f, i, r);
      }
    }
  }

  lemma BoundedAgain(p: Program, s: Solution, next: Solution, rets: RegSets, indirect: set<Reg>)
    requires NeedsBounded(p, s, rets, indirect) && next.noreturn == s.noreturn && next.clobbers == s.clobbers
    ensures NeedsBounded(p, next, rets, indirect)
  {
    hide CalleeClobbers;
    forall f, r | f in rets && r in rets[f] ensures MayReturn(p, next, f, r) {
      assert MayReturn(p, s, f, r);
    }
  }

  lemma NothingAsked(p: Program, s: Solution)
    requires forall r | r in s.indirectRet :: Volatile(r) && r in p.localised
    ensures NeedsBounded(p, s, map[], s.indirectRet) && AskedOnly(p, s, map[], s.indirectRet)
    ensures EverySupplied(p, s, map[], s.indirectRet, {})
  {
  }

  lemma EveryName(p: Program, s: Solution, newRet: RegSets, newIndirectRet: set<Reg>, done: set<Name>, order: seq<Name>)
    requires EverySupplied(p, s, newRet, newIndirectRet, done)
    requires forall j | 0 <= j < |order| :: order[j] in done
    ensures EverySupplied(p, s, newRet, newIndirectRet, Names(order))
  {
    hide AllSupplied;
  }

  lemma LivebeforeFits(p: Program, s: Solution, f: Name)
    requires SettledExcept(p, s, {}) && f in p.functions
    ensures f in s.livebefore && |s.livebefore[f]| == |p.functions[f].nodes|
  {
    assert Settled(p, s, f);
  }

  /** Nothing left to store: the sets already solve the whole system. */
  lemma SolvedWhenStable(p: Program, s: Solution, newRet: RegSets, newIndirectRet: set<Reg>)
    requires WellFormed(p)
    requires IsNoreturn(p, s.noreturn) && IsLeastClobbers(p, s.noreturn, s.clobbers)
    requires s.livein.Keys == s.ret.Keys == s.livebefore.Keys == p.functions.Keys
    requires SettledExcept(p, s, {})
    requires NeedsBounded(p, s, s.ret, s.indirectRet)
    requires EverySupplied(p, s, newRet, newIndirectRet, p.functions.Keys)
    requires forall f | f in p.functions :: Lookup(newRet, f) <= s.ret[f]
    ensures Solved(p, s)
    ensures forall f, i, r | f in p.functions && 0 <= i < |p.functions[f].nodes|
      && p.functions[f].nodes[i].kind == ICALL ::
      f in s.livebefore && (Needed(p, s, f, i, r) ==> r in newIndirectRet)
  {
    hide IsNoreturn, IsLeastClobbers, Settled, Needed, WellFormed;
    forall f, i | f in p.functions && 0 <= i < |p.functions[f].nodes|
      ensures Supplied(p, s, newRet, newIndirectRet, f, i) {
      assert AllSupplied(p, s, newRet, newIndirectRet, f, |p.functions[f].nodes|);
    }
    forall f, i | f in p.functions && 0 <= i < |p.functions[f].nodes| ensures CallSupplied(p, s, f, i) {
      assert Supplied(p, s, newRet, newIndirectRet, f, i);
    }
    forall f, i, r | f in p.functions && 0 <= i < |p.functions[f].nodes| && p.functions[f].nodes[i].kind == ICALL
      && Needed(p, s, f, i, r)
      ensures r in newIndirectRet
    {
      assert Supplied(p, s, newRet, newIndirectRet, f, i);
    }
  }

  lemma SuccInRange(p: Program, f: Name, i: nat)
    requires WellFormed(p) && f in p.functions && i < |p.functions[f].nodes|
    ensures forall t: nat | t in p.functions[f].nodes[i].succ :: t < |p.functions[f].nodes|
  {
    assert WellFormedNodes(p.functions[f].nodes);
    assert WellFormedNode(p.functions[f].nodes, p.functions[f].nodes[i]);
  }

  // ------------------------------------------------------------ programs without calls of their own

  /** No function calls a function of the program: only imported ones, and none indirectly. */
  predicate NoCalls(p: Program) {
    forall f, n | f in p.functions && n in p.functions[f].nodes ::
      n.kind != ICALL && (n.kind == CALL ==> n.callee !in p.functions)
  }

  lemma NobodyCalls(p: Program, name: Name)
    ensures NoCalls(p) && name in p.functions ==>
      forall f | f in p.functions :: name !in CalleesOf(p.functions[f].nodes)
  {
  }

  lemma LastName(work: seq<Name>)
    requires work != []
    ensures Names(work) == Names(work[..|work| - 1]) + {work[|work| - 1]}
  {
    assert work == work[..|work| - 1] + [work[|work| - 1]];
    NamesAppend(work[..|work| - 1], work[|work| - 1]);
    hide Names;
  }

  lemma EverythingQueued(p: Program, s: Solution, queued: set<Name>)
    requires queued == p.functions.Keys
    ensures SettledExcept(p, s, queued)
  {
  }

  /** Nothing new comes of a function that is settled. */
  lemma SettledAgain(p: Program, s: Solution, name: Name, live: Masks)
    requires name in p.functions && name in s.livebefore
    requires IsLeastSolution(p.functions[name].nodes, Gens(p, name, s.livein, s.ret, s.indirectLivein, false),
      Kills(p, name, s.ret, s.indirectRet), live)
    ensures Settled(p, s, name) ==> live == s.livebefore[name] && s.livebefore[name := live] == s.livebefore
  {
    hide Gens, Kills;
    if Settled(p, s, name) {
      var was := s.livebefore[name];
      forall i | 0 <= i < |live| ensures live[i] == was[i] {
        assert live[i] <= was[i] <= live[i];
      }
    }
  }

  lemma SettledAt(p: Program, s: Solution, name: Name)
    ensures SettledExcept(p, s, {}) && name in p.functions ==> Settled(p, s, name)
  {
    hide Settled;
  }

  lemma NothingToAsk(p: Program, s: Solution, newRet: RegSets, newIndirect: set<Reg>)
    requires AskedOnly(p, s, newRet, newIndirect) && s.indirectRet <= newIndirect
    ensures NoCalls(p) ==> newIndirect == s.indirectRet && forall f | f in p.functions :: Lookup(newRet, f) == {}
  {
    hide Needed;
  }

  /** Without indirect calls it does not matter what they read. */
  lemma SettledStill(p: Program, s: Solution, union: set<Reg>)
    ensures NoCalls(p) && SettledExcept(p, s, {}) ==> SettledExcept(p, s.(indirectLivein := union), {})
  {
    hide IsLeastSolution;
    forall f | f in p.functions && NoCalls(p)
      ensures Gens(p, f, s.livein, s.ret, s.indirectLivein, false) == Gens(p, f, s.livein, s.ret, union, false)
    {
      assert forall i | 0 <= i < |p.functions[f].nodes| :: p.functions[f].nodes[i] in p.functions[f].nodes;
    }
  }

  /** What indirect calls read, for the live-in sets there are. */
  ghost predicate ReadsSettled(p: Program, targets: seq<Name>, abiIndirect: bool, s: Solution) {
    if abiIndirect then s.indirectLivein == IndirectReads(p)
    else IsIndirectUnion(p, s.livein, targets, s.indirectLivein)
  }

  lemma ReadsAre(p: Program, targets: seq<Name>, abiIndirect: bool, s: Solution)
    requires abiIndirect ==> s.indirectLivein == IndirectReads(p)
    requires !abiIndirect ==> IsIndirectUnion(p, s.livein, targets, s.indirectLivein)
    ensures ReadsSettled(p, targets, abiIndirect, s)
  {
  }

  lemma OneUnion(p: Program, targets: seq<Name>, abiIndirect: bool, s: Solution, t: Solution)
    requires ReadsSettled(p, targets, abiIndirect, s) && ReadsSettled(p, targets, abiIndirect, t)
      && s.livein == t.livein
    ensures s.indirectLivein == t.indirectLivein
  {
    forall r ensures r in s.indirectLivein <==> r in t.indirectLivein {
    }
  }

  class Analysis {
    const p: Program
    const order: seq<Name>
    const targets: seq<Name>
    const abiIndirect: bool
    var noreturn: set<Name>
    var clobbers: RegSets
    var livein: RegSets
    var ret: RegSets
    var livebefore: map<Name, Masks>
    var indirectLivein: set<Reg>
    var indirectRet: set<Reg>

    constructor (p: Program, order: seq<Name>, targets: seq<Name>, abiIndirect: bool)
      requires WellFormed(p) && Names(order) == p.functions.Keys
      ensures this.p == p && this.order == order && this.targets == targets && this.abiIndirect == abiIndirect
    {
      this.p, this.order, this.targets, this.abiIndirect := p, order, targets, abiIndirect;
      noreturn, clobbers := {}, map f | f in p.functions :: {};
      livein, ret := map f | f in p.functions :: {}, map f | f in p.functions :: {};
      livebefore := map f | f in p.functions :: [];
      indirectLivein, indirectRet := {}, {};
    }

    ghost predicate Ordered() {
      WellFormed(p) && Names(order) == p.functions.Keys
    }

    function State(): Solution
      reads this
    {
      Solution(noreturn, clobbers, livein, ret, livebefore, indirectLivein, indirectRet)
    }

    /** liveness: the least solution of the function's equations for the current sets. */
    method Liveness(f: Name, local: bool) returns (live: Masks)
      requires Ordered() && f in p.functions
      modifies this`livebefore
      ensures IsLeastSolution(p.functions[f].nodes,
        Gens(p, f, livein, ret, if local then {} else indirectLivein, local), Kills(p, f, ret, indirectRet), live)
      ensures livebefore == if local then old(livebefore) else old(livebefore)[f := live]
    {
      hide WellFormed, IsLeastSolution, Gen, Kill, Graph;
      var nodes := p.functions[f].nodes;
      var gen, kill: Masks := [], [];
      ghost var gens, kills := Gens(p, f, livein, ret, if local then {} else indirectLivein, local),
        Kills(p, f, ret, indirectRet);
      for i := 0 to |nodes|
        invariant gen == gens[..i] && kill == kills[..i]
      {
        gen := gen + [Gen(p, f, livein, ret, if local then {} else indirectLivein, local, nodes[i])];
        kill := kill + [Kill(p, ret, indirectRet, nodes[i])];
      }
      assert gen == gens && kill == kills;
      GraphOf(p, f, livein, ret, if local then {} else indirectLivein, indirectRet, local);
      live := SolveFlow(nodes, gen, kill);
      if !local {
        livebefore := livebefore[f := live];
      }
    }

    /** Queues every caller of name that is not queued yet. */
    method QueueCallers(name: Name, work: seq<Name>, queued: set<Name>) returns (work': seq<Name>, queued': set<Name>)
      requires Ordered()
      requires queued <= Names(work) <= p.functions.Keys
      ensures queued' <= Names(work') <= p.functions.Keys
      ensures queued <= queued'
      ensures forall f | f in p.functions && name in CalleesOf(p.functions[f].nodes) :: f in queued'
      ensures NoCalls(p) && name in p.functions ==> work' == work && queued' == queued
    {
      hide WellFormed, CalleesOf, NoCalls;
      NobodyCalls(p, name);
      work', queued' := work, queued;
      for k := 0 to |order|
        invariant queued' <= Names(work') <= p.functions.Keys
        invariant queued <= queued'
        invariant forall f | f in order[..k] && name in CalleesOf(p.functions[f].nodes) :: f in queued'
        invariant NoCalls(p) && name in p.functions ==> work' == work && queued' == queued
      {
        var caller := order[k];
        assert caller in order && order[..k + 1] == order[..k] + [caller];
        if name in CalleesOf(p.functions[caller].nodes) && caller !in queued' {
          queued' := queued' + {caller};
          NamesAppend(work', caller);
          work' := work' + [caller];
        }
      }
      assert order[..|order|] == order;
    }

    ghost predicate Fresh(name: Name)
      reads this
    {
      && name in p.functions && name in livebefore
      && |livebefore[name]| == |p.functions[name].nodes| > 0
      && IsLeastSolution(p.functions[name].nodes,
          Gens(p, name, livein, ret, indirectLivein, false), Kills(p, name, ret, indirectRet), livebefore[name])
    }

    /** Stores a live-in set that changed and queues the function's callers. */
    method StoreLivein(name: Name, work: seq<Name>, queued: set<Name>) returns (work': seq<Name>, queued': set<Name>)
      requires Ordered() && name in p.functions && Fresh(name)
      requires queued <= Names(work) <= p.functions.Keys
      requires SettledExcept(p, State(), queued + {name})
      modifies this`livein
      ensures livein == old(livein)[name := livebefore[name][0] * p.localised]
      ensures name in old(livein) ==> livein.Keys == old(livein).Keys
      ensures queued' <= Names(work') <= p.functions.Keys
      ensures SettledExcept(p, State(), queued')
      ensures NoCalls(p) ==> work' == work && queued' == queued
    {
      hide SettledExcept, CalleesOf, IsLeastSolution, Gens, Kills, Ordered, NoCalls;
      work', queued' := QueueCallers(name, work, queued);
      SettledFewer(p, State(), queued + {name}, queued' + {name});
      AfterLivein(p, State(), name, queued');
      livein := livein[name := livebefore[name][0] * p.localised];
    }

    /** Recomputes one function's sets; value is the live-in set they give it. */
    method Refresh(name: Name, ghost queued: set<Name>) returns (value: set<Reg>)
      requires Ordered() && livein.Keys == livebefore.Keys == p.functions.Keys && name in p.functions
      requires SettledExcept(p, State(), queued + {name})
      modifies this`livebefore
      ensures livebefore.Keys == p.functions.Keys
      ensures Fresh(name) && value == livebefore[name][0] * p.localised
      ensures SettledExcept(p, State(), queued + {name})
      ensures value == livein[name] ==> SettledExcept(p, State(), queued)
      ensures Settled(p, old(State()), name) ==> State() == old(State()) && value == livein[name]
    {
      assert p.functions[name].nodes != [] by { assert WellFormedNodes(p.functions[name].nodes); }
      hide SettledExcept, CalleesOf, IsLeastSolution, Gens, Kills, WellFormed;
      ghost var before := State();
      var live := Liveness(name, false);
      LeastLength(p.functions[name].nodes, Gens(p, name, before.livein, before.ret, before.indirectLivein, false),
        Kills(p, name, before.ret, before.indirectRet), live);
      AfterLiveness(p, before, name, live, queued);
      assert before.(livebefore := before.livebefore[name := live]) == State();
      value := live[0] * p.localised;
      SettledAgain(p, before, name, live);
    }

    /** Recomputes one function; a changed live-in set is stored and its callers queued. */
    method Recompute(name: Name, work: seq<Name>, queued: set<Name>)
        returns (work': seq<Name>, queued': set<Name>, changed: bool)
      requires Ordered() && livein.Keys == livebefore.Keys == p.functions.Keys && name in p.functions
      requires queued <= Names(work) <= p.functions.Keys
      requires SettledExcept(p, State(), queued + {name})
      modifies this`livein, this`livebefore
      ensures livein.Keys == livebefore.Keys == p.functions.Keys
      ensures queued' <= Names(work') <= p.functions.Keys
      ensures SettledExcept(p, State(), queued')
      ensures NoCalls(p) ==> work' == work && queued' == queued
      ensures Settled(p, old(State()), name) ==>
        State() == old(State()) && !changed && work' == work && queued' == queued
    {
      hide *;
      var value := Refresh(name, queued);
      changed := value != livein[name];
      if changed {
        work', queued' := StoreLivein(name, work, queued);
      } else {
        work', queued' := work, queued;
      }
    }

    lemma OrderIs()
      requires Ordered()
      ensures Names(order) == p.functions.Keys
    {
    }

    /** The inner worklist of solve: recomputes functions, and their callers whenever a
        live-in set changes. Gives up when the budget of recomputations runs out. */
    method PropagateLivein(budget: nat) returns (settled: bool, changed: bool, left: nat)
      requires Ordered() && livein.Keys == livebefore.Keys == p.functions.Keys
      modifies this`livein, this`livebefore
      ensures livein.Keys == livebefore.Keys == p.functions.Keys
      ensures settled ==> SettledExcept(p, State(), {})
      ensures left <= budget
      ensures NoCalls(p) && budget >= |order| ==> settled && left == budget - |order|
      ensures SettledExcept(p, old(State()), {}) && budget >= |order| ==>
        settled && !changed && State() == old(State()) && left == budget - |order|
    {
      hide *;
      OrderIs();
      ghost var s := State();
      var work, queued := order, Names(order);
      settled, changed, left := false, false, budget;
      EverythingQueued(p, s, queued);
      while work != []
        invariant queued <= Names(work) <= p.functions.Keys
        invariant livein.Keys == livebefore.Keys == p.functions.Keys
        invariant SettledExcept(p, State(), queued)
        invariant left <= budget
        invariant NoCalls(p) && budget >= |order| ==> left == budget - |order| + |work|
        invariant SettledExcept(p, s, {}) && budget >= |order| ==>
          State() == s && !changed && left == budget - |order| + |work|
        decreases left
      {
        if left == 0 {
          return;
        }
        SettledAt(p, s, work[|work| - 1]);
        left := left - 1;
        var name := work[|work| - 1];
        LastName(work);
        SettledFewer(p, State(), queued, queued - {name} + {name});
        var grew;
        work, queued, grew := Recompute(name, work[..|work| - 1], queued - {name});
        changed := changed || grew;
      }
      NamesOfNone();
      assert work == [] && queued == {};
      settled := true;
    }

    /** What one call needs back, given its function's own liveness. */
    method NeedAt(f: Name, n: Node, own: Masks) returns (need: set<Reg>)
      requires f in livebefore && n.kind in {CALL, ICALL}
      requires forall t: nat | t in n.succ :: t < |livebefore[f]| && t < |own|
      ensures need == NeedSet(p, State(), f, n, own)
    {
      hide Out, Volatile;
      var after := OutOf(n.succ, own);
      need := set r | r in after && Volatile(r) && r in p.localised;
      if n.kind == CALL {
        var changed := CalleeClobbers(noreturn, clobbers, n.callee) * p.localised;
        if changed != {} {
          var full := OutOf(n.succ, livebefore[f]);
          need := need + full * changed;
        }
      }
    }

    /** Adds what the calls of one function need back to what was asked so far. */
    method NeedsOf(f: Name, askedRet: RegSets, askedIndirect: set<Reg>) returns (newRet: RegSets, newIndirect: set<Reg>)
      requires Ordered() && f in p.functions && f in livebefore && |livebefore[f]| == |p.functions[f].nodes|
      requires NeedsBounded(p, State(), askedRet, askedIndirect) && AskedOnly(p, State(), askedRet, askedIndirect)
      modifies this`livebefore
      ensures State() == old(State()) && livebefore == old(livebefore)
      ensures NeedsBounded(p, State(), newRet, newIndirect) && AskedOnly(p, State(), newRet, newIndirect)
      ensures Grows(askedRet, newRet) && askedIndirect <= newIndirect
      ensures AllSupplied(p, State(), newRet, newIndirect, f, |p.functions[f].nodes|)
    {
      var nodes := p.functions[f].nodes;
      newRet, newIndirect := askedRet, askedIndirect;
      var own := Liveness(f, true);
      ghost var s := State();
      LeastLength(nodes, Gens(p, f, livein, ret, {}, true), Kills(p, f, ret, indirectRet), own);
      hide NeedsBounded, AskedOnly, NeedSet, AllSupplied, Grows, Ordered, IsLeastSolution, Gens, Kills;
      Reflexive(askedRet);
      AllOfNone(p, s, newRet, newIndirect, f);
      for i := 0 to |nodes|
        invariant State() == s
        invariant NeedsBounded(p, s, newRet, newIndirect) && AskedOnly(p, s, newRet, newIndirect)
        invariant Grows(askedRet, newRet) && askedIndirect <= newIndirect
        invariant AllSupplied(p, s, newRet, newIndirect, f, i)
      {
        var n := nodes[i];
        if n.kind == CALL || n.kind == ICALL {
          SuccInRange(p, f, i);
          var need := NeedAt(f, n, own);
          NeedIs(p, s, f, i, own);
          AskSupplies(p, s, f, i, need, askedRet, newRet, newIndirect);
          newRet, newIndirect := Asked(p, State(), n, need, newRet), AskedIndirect(n, need, newIndirect);
        } else {
          OtherSupplied(p, s, newRet, newIndirect, f, i);
        }
      }
    }

    lemma StateFields()
      ensures State().livebefore == livebefore && State().indirectRet == indirectRet
    {
    }

    /** What every call of the program needs back with the current sets. */
    method CollectNeeds() returns (newRet: RegSets, newIndirect: set<Reg>)
      requires Ordered() && Names(order) == p.functions.Keys == livebefore.Keys
      requires SettledExcept(p, State(), {})
      requires forall r | r in indirectRet :: Volatile(r) && r in p.localised
      modifies this`livebefore
      ensures State() == old(State())
      ensures NeedsBounded(p, State(), newRet, newIndirect) && indirectRet <= newIndirect
      ensures AskedOnly(p, State(), newRet, newIndirect)
      ensures EverySupplied(p, State(), newRet, newIndirect, p.functions.Keys)
    {
      hide *;
      newRet, newIndirect := map[], indirectRet;
      ghost var s, done: set<Name> := State(), {};
      StateFields();
      NothingAsked(p, s);
      for k := 0 to |order|
        invariant State() == s && livebefore == old(livebefore)
        invariant NeedsBounded(p, s, newRet, newIndirect) && indirectRet <= newIndirect
        invariant AskedOnly(p, s, newRet, newIndirect)
        invariant forall j | 0 <= j < k :: order[j] in done
        invariant EverySupplied(p, s, newRet, newIndirect, done)
      {
        var f := order[k];
        InNames(order, k);
        LivebeforeFits(p, s, f);
        ghost var askedRet, askedIndirect := newRet, newIndirect;
        newRet, newIndirect := NeedsOf(f, newRet, newIndirect);
        EveryMonotone(p, s, askedRet, askedIndirect, newRet, newIndirect, done, f);
        done := done + {f};
      }
      EveryName(p, s, newRet, newIndirect, done, order);
    }

    /** Stores what was asked of each function directly. */
    method StoreAsked(newRet: RegSets) returns (changed: bool)
      requires ret.Keys == p.functions.Keys && Names(order) == p.functions.Keys
      modifies this`ret
      ensures ret.Keys == p.functions.Keys
      ensures forall f | f in ret :: old(ret)[f] <= ret[f] <= old(ret)[f] + Lookup(newRet, f)
      ensures !changed ==> ret == old(ret) && forall f | f in ret :: Lookup(newRet, f) <= ret[f]
      ensures (forall f | f in ret :: Lookup(newRet, f) <= old(ret)[f]) ==> !changed
    {
      changed := false;
      for k := 0 to |order|
        invariant ret.Keys == p.functions.Keys
        invariant forall f | f in ret :: old(ret)[f] <= ret[f] <= old(ret)[f] + Lookup(newRet, f)
        invariant !changed ==> ret == old(ret) && forall j | 0 <= j < k && order[j] in ret ::
          Lookup(newRet, order[j]) <= ret[order[j]]
        invariant (forall f | f in ret :: Lookup(newRet, f) <= old(ret)[f]) ==> !changed
      {
        InNames(order, k);
        var name := order[k];
        if !(Lookup(newRet, name) <= ret[name]) {
          ret := ret[name := ret[name] + Lookup(newRet, name)];
          changed := true;
        }
      }
    }

    /** Stores what was asked of each function; changed tells whether any set grew. */
    method StoreRets(newRet: RegSets, newIndirect: set<Reg>) returns (changed: bool)
      requires ret.Keys == p.functions.Keys && Names(order) == p.functions.Keys
      requires indirectRet <= newIndirect || abiIndirect
      modifies this`ret, this`indirectRet
      ensures ret.Keys == p.functions.Keys
      ensures forall f | f in ret :: old(ret)[f] <= ret[f] <= old(ret)[f] + Lookup(newRet, f) + indirectRet
      ensures forall f | f in ret && f !in targets :: ret[f] <= old(ret)[f] + Lookup(newRet, f)
      ensures indirectRet == if abiIndirect then {} else newIndirect
      ensures !changed ==> ret == old(ret) && indirectRet == old(indirectRet)
      ensures !changed ==> forall f | f in ret :: Lookup(newRet, f) <= ret[f]
      ensures indirectRet == old(indirectRet) || forall t | t in targets && t in ret :: indirectRet <= ret[t]
      ensures old(indirectRet) == (if abiIndirect then {} else newIndirect) ==>
        (forall f | f in ret :: Lookup(newRet, f) <= old(ret)[f]) ==> !changed
    {
      hide Lookup;
      changed := StoreAsked(newRet);
      var indirect := if abiIndirect then {} else newIndirect;
      if indirect != indirectRet {
        indirectRet := indirect;
        ReturnIndirect();
        changed := true;
      }
    }

    /** Every target of an indirect call returns what an indirect caller reads. */
    method ReturnIndirect()
      modifies this`ret
      ensures ret.Keys == old(ret).Keys
      ensures forall f | f in ret :: old(ret)[f] <= ret[f] <= old(ret)[f] + if f in targets then indirectRet else {}
      ensures forall t | t in targets && t in ret :: indirectRet <= ret[t]
    {
      for k := 0 to |targets|
        invariant ret.Keys == old(ret).Keys
        invariant forall f | f in ret :: old(ret)[f] <= ret[f] <= old(ret)[f] + if f in targets then indirectRet else {}
        invariant forall j | 0 <= j < k && targets[j] in ret :: indirectRet <= ret[targets[j]]
      {
        if targets[k] in ret {
          ret := ret[targets[k] := ret[targets[k]] + indirectRet];
        }
      }
    }

    /** What an indirect call's caller stores first. */
    method IndirectUnion() returns (union: set<Reg>)
      requires livein.Keys == p.functions.Keys
      ensures abiIndirect ==> union == IndirectReads(p)
      ensures !abiIndirect ==> IsIndirectUnion(p, livein, targets, union)
    {
      if abiIndirect {
        union := {R(12)} * p.localised;
      } else {
        union := {};
        for k := 0 to |targets|
          invariant forall r :: r in union <==>
            exists j :: 0 <= j < k && targets[j] in p.functions && ReadsAtEntry(p, livein, targets[j], r)
        {
          if targets[k] in p.functions {
            union := union + livein[targets[k]] + Lookup(p.host, targets[k]) * p.localised;
          }
        }
        forall r ensures r in union <==> exists t :: t in targets && t in p.functions && ReadsAtEntry(p, livein, t, r) {
          if t :| t in targets && t in p.functions && ReadsAtEntry(p, livein, t, r) {
            var j :| 0 <= j < |targets| && targets[j] == t;
          }
        }
      }
    }

    /** What holds between the rounds of solve. */
    ghost predicate Running()
      reads this
    {
      && IsNoreturn(p, noreturn)
      && IsLeastClobbers(p, noreturn, clobbers)
      && livein.Keys == ret.Keys == livebefore.Keys == p.functions.Keys == Names(order)
      && NeedsBounded(p, State(), ret, indirectRet)
      && RetsFounded(p, targets, abiIndirect, ret, indirectRet)
      && if abiIndirect then indirectRet == {} else forall t | t in targets && t in ret :: indirectRet <= ret[t]
    }

    method Start()
      requires Ordered()
      modifies this
      ensures Running()
    {
      hide IsNoreturn, IsLeastClobbers, WellFormed, ClosedUnderAsking;
      noreturn := FindNoreturn(p, order);
      clobbers := FindClobbers(p, order, noreturn);
      livein, ret := map f | f in p.functions :: {}, map f | f in p.functions :: {};
      livebefore := map f | f in p.functions :: [];
      indirectLivein, indirectRet := {}, {};
    }

    method RoundLivein(budget: nat) returns (settled: bool, changed: bool, left: nat)
      requires Ordered() && Running()
      modifies this`livein, this`livebefore
      ensures left <= budget && Running()
      ensures settled ==> SettledExcept(p, State(), {})
      ensures NoCalls(p) && budget >= |order| ==> settled && left == budget - |order|
      ensures SettledExcept(p, old(State()), {}) && budget >= |order| ==>
        settled && !changed && State() == old(State()) && left == budget - |order|
    {
      hide IsNoreturn, IsLeastClobbers, SettledExcept, Ordered, RetsFounded;
      settled, changed, left := PropagateLivein(budget);
    }

    lemma RunningFacts()
      requires Running()
      ensures livein.Keys == ret.Keys == livebefore.Keys == p.functions.Keys == Names(order)
      ensures forall r | r in indirectRet :: Volatile(r) && r in p.localised
      ensures NeedsBounded(p, State(), State().ret, State().indirectRet)
    {
    }

    lemma RoundIs()
      requires Running() && SettledExcept(p, State(), {})
      ensures Round(p, State()) && RetsFounded(p, targets, abiIndirect, State().ret, State().indirectRet)
    {
      hide IsNoreturn, IsLeastClobbers, NeedsBounded, RetsFounded, Settled;
      assert State().livein.Keys == State().ret.Keys == State().livebefore.Keys == p.functions.Keys;
    }

    lemma RunningAgain(s: Solution, newRet: RegSets, newIndirect: set<Reg>)
      requires s.(ret := ret, indirectRet := indirectRet, indirectLivein := indirectLivein) == State()
      requires IsNoreturn(p, noreturn) && IsLeastClobbers(p, noreturn, clobbers)
      requires livein.Keys == ret.Keys == s.ret.Keys == livebefore.Keys == p.functions.Keys == Names(order)
      requires NeedsBounded(p, s, s.ret, s.indirectRet) && NeedsBounded(p, s, newRet, newIndirect)
      requires Round(p, s) && RetsFounded(p, targets, abiIndirect, s.ret, s.indirectRet)
        && AskedOnly(p, s, newRet, newIndirect)
      requires forall f | f in ret :: s.ret[f] <= ret[f] <= s.ret[f] + Lookup(newRet, f) + indirectRet
      requires forall f | f in ret && f !in targets :: ret[f] <= s.ret[f] + Lookup(newRet, f)
      requires indirectRet == if abiIndirect then {} else newIndirect
      requires !abiIndirect ==> forall t | t in targets && t in ret :: indirectRet <= ret[t]
      ensures Running()
    {
      hide IsNoreturn, IsLeastClobbers, RetsFounded, AskedOnly, Round, NeedsBounded;
      RetsStayBounded(p, s, s.ret, s.indirectRet, newRet, newIndirect, ret, indirectRet);
      RetsStayFounded(p, targets, abiIndirect, s, newRet, newIndirect, ret, indirectRet);
      BoundedAgain(p, s, State(), ret, indirectRet);
    }

    /** The rest of a round: what the calls need back, and what indirect calls read. */
    method RoundRets() returns (changed: bool)
      requires Ordered() && Running() && SettledExcept(p, State(), {})
      modifies this
      ensures Running()
      ensures !changed ==> SolvesTo(p, targets, abiIndirect, State())
      ensures ReadsSettled(p, targets, abiIndirect, State())
      ensures NoCalls(p) ==> State() == old(State()).(indirectLivein := State().indirectLivein)
      ensures NoCalls(p) ==> (changed <==> State().indirectLivein != old(State()).indirectLivein)
    {
      hide SolvesTo, Round, AskedOnly, RetsFounded, IsIndirectUnion, IsNoreturn, IsLeastClobbers, SettledExcept,
        EverySupplied, Ordered, Solved, IndirectSolved, Needed, NeedsBounded, NoCalls, Lookup, ReadsSettled;
      RunningFacts();
      RoundIs();
      var union := IndirectUnion();
      var newRet, newIndirect := CollectNeeds();
      ghost var s := State();
      NothingToAsk(p, s, newRet, newIndirect);
      changed := StoreRets(newRet, newIndirect);
      changed := changed || union != indirectLivein;
      indirectLivein := union;
      RunningAgain(s, newRet, newIndirect);
      ReadsAre(p, targets, abiIndirect, State());
      if !changed {
        Finished(s, newRet, newIndirect);
      }
    }

    lemma Finished(s: Solution, newRet: RegSets, newIndirect: set<Reg>)
      requires Ordered() && Running() && s == State() && SettledExcept(p, s, {})
      requires EverySupplied(p, s, newRet, newIndirect, p.functions.Keys)
      requires forall f | f in ret :: Lookup(newRet, f) <= ret[f]
      requires indirectRet == if abiIndirect then {} else newIndirect
      requires abiIndirect ==> indirectLivein == IndirectReads(p)
      requires !abiIndirect ==> IsIndirectUnion(p, livein, targets, indirectLivein)
      ensures SolvesTo(p, targets, abiIndirect, State())
    {
      hide IsIndirectUnion, RetsFounded, IsNoreturn, IsLeastClobbers, SettledExcept, EverySupplied, Needed, Solved;
      SolvedWhenStable(p, s, newRet, newIndirect);
    }

    /** Program.solve, given up when the budget of recomputations runs out; what it
        returns otherwise solves the coupled equations, and returns only what was asked for. */
    method Solve(budget: nat) returns (solved: bool)
      requires Ordered()
      modifies this
      ensures solved ==> SolvesTo(p, targets, abiIndirect, State())
      ensures NoCalls(p) && budget >= 2 * |order| + 2 ==> solved
    {
      hide *;
      Start();
      var left := budget;
      while left > 0
        invariant Running()
        invariant NoCalls(p) && budget >= 2 * |order| + 2 ==>
          left == budget || (left > |order| && SettledExcept(p, State(), {})
            && ReadsSettled(p, targets, abiIndirect, State()))
        decreases left
      {
        var settled, grew;
        settled, grew, left := RoundLivein(left - 1);
        if !settled {
          return false;
        }
        ghost var now := State();
        var changed := RoundRets();
        ghost var after := State();
        SettledStill(p, now, after.indirectLivein);
        if NoCalls(p) && ReadsSettled(p, targets, abiIndirect, now) {
          assert now.livein == after.livein;
          OneUnion(p, targets, abiIndirect, now, after);
        }
        if !grew && !changed {
          return true;
        }
      }
      return false;
    }
  }
}
