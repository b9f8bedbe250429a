/** Live-in sets are sound: two runs of a function that start alike on what it is found
    to read, and on everything that is never a local, cannot be told apart. */
module Noninterference {
  import opened Registers
  import opened Programs
  import opened Liveness
  import opened CallGraph
  import opened Analysis
  import opened Machine
  import opened CallFacts

  /** Every register either agrees at the end or was left alone on both sides. */
  ghost predicate Traced(a: File, b: File, a': File, b': File) {
    forall r :: At(a', r) == At(b', r) || (At(a', r) == At(a, r) && At(b', r) == At(b, r))
  }

  function LiveAt(s: Solution, f: Name, i: nat): set<Reg> {
    Watched(s.livebefore, f, i)
  }

  /** The dataflow equations of a solved program, at one node. */
  lemma LiveFacts(p: Program, s: Solution, f: Name, i: nat)
    requires Solved(p, s) && f in p.functions && i < |p.functions[f].nodes|
    ensures var n := p.functions[f].nodes[i];
      && Gen(p, f, s.livein, s.ret, s.indirectLivein, false, n) <= LiveAt(s, f, i)
      && forall t: nat, r {:trigger r in LiveAt(s, f, t), t in n.succ} | t in n.succ && t < |p.functions[f].nodes|
        && r in LiveAt(s, f, t) ::
          r in Kill(p, s.ret, s.indirectRet, n) || r in LiveAt(s, f, i)
  {
    hide IsNoreturn, IsLeastClobbers, RetsBounded, CallSupplied, Gen, Kill;
    assert Settled(p, s, f);
    var live := s.livebefore[f];
    assert live[i] == Equation(p.functions[f].nodes,
      Gens(p, f, s.livein, s.ret, s.indirectLivein, false), Kills(p, f, s.ret, s.indirectRet), live, i);
  }

  lemma EntryFacts(p: Program, s: Solution, f: Name, r: Reg)
    requires Solved(p, s) && f in p.functions && r in LiveAt(s, f, 0)
    ensures r in Lookup(s.livein, f) || r !in p.localised
  {
    hide IsNoreturn, IsLeastClobbers, RetsBounded, CallSupplied, IsLeastSolution;
    assert Settled(p, s, f);
  }

  /** Nothing a function returns through the context is something its epilogue restores. */
  lemma RetNotRestored(p: Program, m: Meaning, s: Solution, f: Name)
    requires Conventional(p, m, s) && Solved(p, s) && f in p.functions
    ensures Lookup(s.ret, f) !! Restored(p, f)
  {
    hide *;
    SolvedHas(p, s);
    forall r | r in Lookup(s.ret, f) ensures r !in Restored(p, f) {
      if r in Restored(p, f) {
        ReturnedIsNot(p, s, f, r);
        RestoredIs(p, m, s, f, r);
        WritesAreSaveable(p, m, s);
        LeaveNotRestored(p, s, f, r);
      }
    }
  }

  ghost predicate WritesSaveable(p: Program) {
    forall f, r | f in p.functions && r in p.functions[f].written :: Saveable(r)
  }

  lemma WritesAreSaveable(p: Program, m: Meaning, s: Solution)
    requires Conventional(p, m, s)
    ensures WritesSaveable(p)
  {
    hide WellFormed, HelpersReturn, IndirectTarget, NeverBack, SwitchesFrame;
    forall f, r | f in p.functions && r in p.functions[f].written ensures Saveable(r) {
      assert WritesKnown(p, m, f);
    }
  }

  lemma SolvedHas(p: Program, s: Solution)
    requires Solved(p, s)
    ensures IsNoreturn(p, s.noreturn) && IsLeastClobbers(p, s.noreturn, s.clobbers)
      && IsClobbers(p, s.noreturn, s.clobbers)
  {
  }

  lemma ReturnedIsNot(p: Program, s: Solution, f: Name, r: Reg)
    requires Solved(p, s) && f in p.functions && r in Lookup(s.ret, f)
    ensures r in p.localised && (Volatile(r) || (f in s.clobbers && !IsSaveRestore(f) && r in s.clobbers[f]))
  {
    hide IsNoreturn, IsLeastClobbers, Settled, CallSupplied;
    assert MayReturn(p, s, f, r);
  }

  lemma RestoredIs(p: Program, m: Meaning, s: Solution, f: Name, r: Reg)
    requires Conventional(p, m, s) && f in p.functions && r in Restored(p, f) && r in p.localised
    ensures !Volatile(r)
    ensures Saveable(r) || (r in KEPT_FIELDS && !Saveable(r))
  {
    hide WritesKnown, HelpersReturn, IndirectTarget;
    KeptOrVolatileOrSaveable(r);
  }

  /** What a function leaves changed it neither saves nor is one of the kept fields. */
  lemma LeaveNotRestored(p: Program, s: Solution, f: Name, r: Reg)
    requires IsLeastClobbers(p, s.noreturn, s.clobbers) && f in p.functions && !IsSaveRestore(f)
    requires WritesSaveable(p) && r in s.clobbers[f]
    ensures r !in Restored(p, f)
  {
    var saveable := map g | g in p.functions :: SaveablePart(s.clobbers[g]);
    forall g | g in p.functions && !IsSaveRestore(g)
      ensures saveable[g] == ClobberEquation(p, s.noreturn, saveable, g)
    {
      LeaveSaveable(p, s, saveable, g);
    }
    assert IsClobbers(p, s.noreturn, saveable);
    assert SetsBelow(s.clobbers, saveable);
    assert Saveable(r);
  }

  lemma LeaveSaveable(p: Program, s: Solution, saveable: RegSets, g: Name)
    requires IsClobbers(p, s.noreturn, s.clobbers) && g in p.functions
    requires saveable == map h | h in p.functions :: SaveablePart(s.clobbers[h])
    ensures CalleesLeave(p, s.noreturn, saveable, g) == SaveablePart(CalleesLeave(p, s.noreturn, s.clobbers, g))
  {
    var all := CalleesLeave(p, s.noreturn, s.clobbers, g);
    forall r | r in SaveablePart(all) ensures r in CalleesLeave(p, s.noreturn, saveable, g) {
      var c :| c in CalleesOf(p.functions[g].nodes) && c in p.functions && c in s.clobbers && c !in s.noreturn
        && r in s.clobbers[c];
      assert r in saveable[c];
    }
    forall r | r in CalleesLeave(p, s.noreturn, saveable, g) ensures r in SaveablePart(all) {
      var c :| c in CalleesOf(p.functions[g].nodes) && c in p.functions && c in saveable && c !in s.noreturn
        && r in saveable[c];
      assert r in s.clobbers[c];
    }
  }

  // ------------------------------------------------------------ the theorem

  /** One statement on two files that agree on what is live: the same thing happens. */
  lemma StepsAgree(p: Program, m: Meaning, s: Solution, f: Name, i: nat, a: File, b: File, w: World)
    requires WellFormed(p) && Solved(p, s) && f in p.functions && i < |p.functions[f].nodes|
    requires WellFormedNode(p.functions[f].nodes, p.functions[f].nodes[i])
    requires Agree(a, b, LiveAt(s, f, i))
    ensures match (StepAt(p, m, f, i, a, w), StepAt(p, m, f, i, b, w))
      case (Ends(o), Ends(o')) =>
        SameShow(o, o') && (o.Returned? ==> o.file == a && o'.file == b && Agree(a, b, Lookup(s.ret, f)))
      case (Goes(next, a', w'), Goes(next', b', w'')) =>
        && next == next' && w' == w''
        && next < |p.functions[f].nodes|
        && Agree(a', b', LiveAt(s, f, next)) && Traced(a, b, a', b')
      case (Calls(g, shown, w', next), Calls(g', shown', w'', next')) =>
        && g == g' && shown == shown' && w' == w'' && next == next'
        && next < |p.functions[f].nodes|
      case _ => false
  {
    hide Solved, WellFormed, LiveAt, Agree, Traced, Restrict, Override, SameShow;
    var n := p.functions[f].nodes[i];
    StepNext(p, m, f, i, a, w);
    OperandsAgree(p, s, f, i, a, b);
    TracedSame(a, b);
    if n.kind == PLAIN {
      var e := m.plain(f, i, Restrict(a, n.uses), w);
      PlainAgrees(p, s, f, i, n.succ[0], a, b, e.registers);
    } else if n.kind == EXIT {
      EndShow(p, s, f, a, b, w);
    } else if n.kind == BRANCH {
      var next := n.succ[m.choose(f, i, Restrict(a, n.uses), w) % |n.succ|];
      assert next in n.succ;
      PlainAgrees(p, s, f, i, next, a, b, map[]);
    } else if IsDropped(p, n) {
      PlainAgrees(p, s, f, i, n.succ[0], a, b, map[]);
    }
  }

  /** Whatever a statement looks at is live before it. */
  lemma OperandsAgree(p: Program, s: Solution, f: Name, i: nat, a: File, b: File)
    requires Solved(p, s) && f in p.functions && i < |p.functions[f].nodes|
    requires Agree(a, b, LiveAt(s, f, i))
    ensures var n := p.functions[f].nodes[i];
      && (n.kind in {PLAIN, BRANCH, ICALL} ==> Restrict(a, n.uses) == Restrict(b, n.uses))
      && (n.kind in {CALL, ICALL} ==> Restrict(a, n.site) == Restrict(b, n.site))
      && (IsDropped(p, n) ==> Restrict(a, HelperReads(n)) == Restrict(b, HelperReads(n)))
      && (n.kind == EXIT ==> Agree(a, b, Lookup(s.ret, f)))
  {
    hide Solved, LiveAt;
    LiveFacts(p, s, f, i);
  }

  lemma EndShow(p: Program, s: Solution, f: Name, a: File, b: File, w: World)
    ensures SameShow(Returned(a, w, []), Returned(b, w, [])) && SameShow(Stopped(w, []), Stopped(w, []))
  {
  }

  function Writes(n: Node): set<Reg> {
    if n.kind == PLAIN then n.writes else {}
  }

  /** What is live after a statement was live before it, or it writes it. */
  lemma LivePasses(p: Program, s: Solution, f: Name, i: nat, next: nat, r: Reg)
    requires Solved(p, s) && f in p.functions && i < |p.functions[f].nodes|
    requires var n := p.functions[f].nodes[i];
      && n.defs <= n.writes && (n.kind == BRANCH ==> n.defs == {})
      && (n.kind in {PLAIN, BRANCH} || IsDropped(p, n))
      && next in n.succ && next < |p.functions[f].nodes|
    requires r in LiveAt(s, f, next)
    ensures r in LiveAt(s, f, i) || r in Writes(p.functions[f].nodes[i])
  {
    hide Solved, LiveAt;
    LiveFacts(p, s, f, i);
  }

  /** The same values written on both sides keep what is live next alike. */
  lemma PlainAgrees(p: Program, s: Solution, f: Name, i: nat, next: nat, a: File, b: File, out: File)
    requires Solved(p, s) && f in p.functions && i < |p.functions[f].nodes|
    requires var n := p.functions[f].nodes[i];
      && WellFormedNode(p.functions[f].nodes, n)
      && (n.kind in {PLAIN, BRANCH} || IsDropped(p, n))
      && next in n.succ && next < |p.functions[f].nodes|
    requires Agree(a, b, LiveAt(s, f, i))
    ensures var writes := Writes(p.functions[f].nodes[i]);
      var a', b' := Override(a, out, writes), Override(b, out, writes);
      Agree(a', b', LiveAt(s, f, next)) && Traced(a, b, a', b') && (writes == {} ==> Agree(a, b, LiveAt(s, f, next)))
  {
    hide Solved, LiveAt, Override, IsDropped, Writes;
    forall r | r in LiveAt(s, f, next) ensures r in LiveAt(s, f, i) || r in Writes(p.functions[f].nodes[i]) {
      LivePasses(p, s, f, i, next, r);
    }
  }

  lemma AgreeLess(a: File, b: File, s: set<Reg>, less: set<Reg>)
    requires Agree(a, b, s) && less <= s
    ensures Agree(a, b, less)
  {
  }

  /** After a call that returned alike, what is live next agrees: it came back through
      the context, or it was live before and neither side changed it alone. */
  lemma CallAgrees(p: Program, m: Meaning, s: Solution, f: Name, i: nat, next: nat, g: Name, a: File, b: File, a': File,
      b': File)
    requires WellFormed(p) && Solved(p, s) && f in p.functions && i < |p.functions[f].nodes|
    requires next in p.functions[f].nodes[i].succ && next < |p.functions[f].nodes|
    requires Agree(a, b, LiveAt(s, f, i)) && Traced(a, b, a', b')
    requires Agree(a', b', CalleeRet(p, s.ret, g))
    requires Kill(p, s.ret, s.indirectRet, p.functions[f].nodes[i]) <= CalleeRet(p, s.ret, g)
    ensures Agree(a', b', LiveAt(s, f, next))
  {
    hide Solved, WellFormed, LiveAt, Kill;
    LiveFacts(p, s, f, i);
    forall r | r in LiveAt(s, f, next) ensures At(a', r) == At(b', r) {
    }
  }

  /** What a call reads is live before it, and all it returns is what the caller counts on. */
  lemma CalleeSets(p: Program, m: Meaning, s: Solution, f: Name, i: nat, a: File, w: World)
    requires Conventional(p, m, s) && Solved(p, s) && f in p.functions && i < |p.functions[f].nodes|
    requires WellFormedNode(p.functions[f].nodes, p.functions[f].nodes[i])
    ensures match StepAt(p, m, f, i, a, w)
      case Calls(g, _, _, _) =>
        && !Dropped(p, g)
        && CalleeLivein(p, s.livein, g) <= LiveAt(s, f, i)
        && Kill(p, s.ret, s.indirectRet, p.functions[f].nodes[i]) <= CalleeRet(p, s.ret, g)
      case _ => true
  {
    hide Solved, WellFormed, LiveAt, WritesKnown;
    var n := p.functions[f].nodes[i];
    LiveFacts(p, s, f, i);
    if n.kind in {CALL, ICALL} && !IsDropped(p, n) {
      assert n in p.functions[f].nodes;
      assert n.kind == ICALL ==> IndirectTarget(p, s, m.target(f, i, Restrict(a, n.uses), w));
    }
  }

  lemma TracedOn(a: File, b: File, a': File, b': File, a'': File, b'': File)
    requires Traced(a, b, a', b') && Traced(a', b', a'', b'')
    ensures Traced(a, b, a'', b'')
  {
  }

  lemma TracedSame(a: File, b: File)
    ensures Traced(a, b, a, b)
  {
  }

  lemma TracedOutside(a: File, b: File, a': File, b': File, s: set<Reg>)
    requires AgreeOutside(a, b, s) && Traced(a, b, a', b')
    ensures AgreeOutside(a', b', s)
  {
  }

  /** The two runs cannot be told apart: same nodes with the same live values at each, same
      calls, same world; and at the end they agree on what f returns through the context,
      while any other register agrees or was left alone by both. */
  lemma {:induction false} RunsAgree(p: Program, m: Meaning, s: Solution, f: Name, i: nat, a: File, b: File, w: World,
      fuel: nat)
    requires Conventional(p, m, s) && Solved(p, s) && f in p.functions && i < |p.functions[f].nodes|
    requires Agree(a, b, LiveAt(s, f, i)) && AgreeOutside(a, b, p.localised)
    ensures var oa, ob := Run(p, m, s.livebefore, f, i, a, w, fuel), Run(p, m, s.livebefore, f, i, b, w, fuel);
      SameShow(oa, ob) && (oa.Returned? ==> Agree(oa.file, ob.file, Lookup(s.ret, f)) && Traced(a, b, oa.file, ob.file))
    decreases fuel, 0
  {
    hide *;
    var watch := s.livebefore;
    ConventionalHas(p, m, s, f);
    if fuel == 0 {
      NoFuel(p, m, watch, f, i, a, w);
      NoFuel(p, m, watch, f, i, b, w);
      SameShowNone();
      return;
    }
    NodeAt(p, f, i);
    StepsAgree(p, m, s, f, i, a, b, w);
    StepNext(p, m, f, i, a, w);
    RunUnfolds(p, m, watch, f, i, a, w, fuel);
    RunUnfolds(p, m, watch, f, i, b, w, fuel);
    CalleeSets(p, m, s, f, i, a, w);
    HereAgrees(s, f, i, a, b, w);
    var here := Here(watch, f, i, a, w);
    TracedSame(a, b);
    match StepAt(p, m, f, i, a, w)
    case Ends(o) =>
      PrependShow(here, o, StepAt(p, m, f, i, b, w).outcome);
    case Goes(next, a', w') =>
      var b' := StepAt(p, m, f, i, b, w).file;
      TracedOutside(a, b, a', b', p.localised);
      RunsAgree(p, m, s, f, next, a', b', w', fuel - 1);
      var oa, ob := Run(p, m, watch, f, next, a', w', fuel - 1), Run(p, m, watch, f, next, b', w', fuel - 1);
      PrependShow(here, oa, ob);
      SameShowIs(oa, ob);
      if oa.Returned? {
        TracedOn(a, b, a', b', oa.file, ob.file);
      }
    case Calls(g, shown, w', next) =>
      AgreeLess(a, b, LiveAt(s, f, i), CalleeLivein(p, s.livein, g));
      CallsAgree(p, m, s, g, a, b, w', fuel - 1);
      var ba, bb := Invoke(p, m, watch, g, a, w', fuel - 1), Invoke(p, m, watch, g, b, w', fuel - 1);
      SameShowIs(ba, bb);
      var events := here + [Enter(g, shown)];
      if ba.Returned? {
        CallAgrees(p, m, s, f, i, next, g, a, b, ba.file, bb.file);
        TracedOutside(a, b, ba.file, bb.file, p.localised);
        RunsAgree(p, m, s, f, next, ba.file, bb.file, ba.world, fuel - 1);
        var oa, ob := Run(p, m, watch, f, next, ba.file, ba.world, fuel - 1),
          Run(p, m, watch, f, next, bb.file, ba.world, fuel - 1);
        PrependShow(events + ba.trace, oa, ob);
        SameShowIs(oa, ob);
        if oa.Returned? {
          TracedOn(a, b, ba.file, bb.file, oa.file, ob.file);
        }
      } else {
        PrependShow(events, ba, bb);
      }
  }

  lemma SameShowNone()
    ensures SameShow(Exhausted([]), Exhausted([]))
  {
  }

  lemma SameShowIs(a: Outcome, b: Outcome)
    requires SameShow(a, b)
    ensures a.trace == b.trace && (a.Returned? <==> b.Returned?) && (a.Returned? ==> a.world == b.world)
  {
  }

  lemma HereAgrees(s: Solution, f: Name, i: nat, a: File, b: File, w: World)
    requires Agree(a, b, LiveAt(s, f, i))
    ensures Here(s.livebefore, f, i, a, w) == Here(s.livebefore, f, i, b, w)
  {
    AgreeRestrict(a, b, LiveAt(s, f, i));
  }

  lemma PrependShow(events: seq<Event>, a: Outcome, b: Outcome)
    requires SameShow(a, b)
    ensures SameShow(Prepend(events, a), Prepend(events, b))
    ensures Prepend(events, a).Returned? <==> a.Returned?
    ensures Prepend(events, b).Returned? <==> a.Returned?
    ensures a.Returned? ==> Prepend(events, a).file == a.file && Prepend(events, b).file == b.file
  {
  }

  /** Live-in soundness at the level of a call, host code included. */
  lemma {:induction false} CallsAgree(p: Program, m: Meaning, s: Solution, g: Name, a: File, b: File, w: World,
      fuel: nat)
    requires Conventional(p, m, s) && Solved(p, s) && !Dropped(p, g)
    requires Agree(a, b, CalleeLivein(p, s.livein, g)) && AgreeOutside(a, b, p.localised)
    ensures var oa, ob := Invoke(p, m, s.livebefore, g, a, w, fuel), Invoke(p, m, s.livebefore, g, b, w, fuel);
      && SameShow(oa, ob)
      && (oa.Returned? ==> Agree(oa.file, ob.file, CalleeRet(p, s.ret, g)) && Traced(a, b, oa.file, ob.file))
    decreases fuel, 1
  {
    hide *;
    var watch := s.livebefore;
    ConventionalHas(p, m, s, g);
    InvokeUnfolds(p, m, watch, g, a, w, fuel);
    InvokeUnfolds(p, m, watch, g, b, w, fuel);
    SameShowNone();
    if g !in p.functions {
      HostAgrees(p, m, s, g, a, b, w);
    } else if fuel > 0 {
      EntryAgrees(p, s, g, a, b);
      RunsAgree(p, m, s, g, 0, a, b, w, fuel - 1);
      var oa, ob := Run(p, m, watch, g, 0, a, w, fuel - 1), Run(p, m, watch, g, 0, b, w, fuel - 1);
      SameShowIs(oa, ob);
      if oa.Returned? {
        RetNotRestored(p, m, s, g);
        RestoreAgrees(p, s, g, a, b, oa, ob);
      }
    }
  }

  lemma EntryAgrees(p: Program, s: Solution, g: Name, a: File, b: File)
    requires Solved(p, s) && g in p.functions && !Dropped(p, g)
    requires Agree(a, b, CalleeLivein(p, s.livein, g)) && AgreeOutside(a, b, p.localised)
    ensures Agree(a, b, LiveAt(s, g, 0))
  {
    hide Solved;
    forall r | r in LiveAt(s, g, 0) ensures At(a, r) == At(b, r) {
      EntryFacts(p, s, g, r);
    }
  }

  lemma RestoreAgrees(p: Program, s: Solution, g: Name, a: File, b: File, oa: Outcome, ob: Outcome)
    requires oa.Returned? && SameShow(oa, ob) && Lookup(s.ret, g) !! Restored(p, g)
    requires Agree(oa.file, ob.file, Lookup(s.ret, g)) && Traced(a, b, oa.file, ob.file)
    ensures var ra, rb := oa.(file := Override(oa.file, a, Restored(p, g))),
      ob.(file := Override(ob.file, b, Restored(p, g)));
      SameShow(ra, rb) && Agree(ra.file, rb.file, CalleeRet(p, s.ret, g)) && Traced(a, b, ra.file, rb.file)
  {
    hide Restored, Dropped;
  }

  lemma HostAgrees(p: Program, m: Meaning, s: Solution, g: Name, a: File, b: File, w: World)
    requires Solved(p, s) && g !in p.functions && !Dropped(p, g)
    requires Agree(a, b, CalleeLivein(p, s.livein, g)) && AgreeOutside(a, b, p.localised)
    ensures var oa, ob := HostCall(p, m, g, a, w), HostCall(p, m, g, b, w);
      && SameShow(oa, ob)
      && (oa.Returned? ==> Agree(oa.file, ob.file, CalleeRet(p, s.ret, g)) && Traced(a, b, oa.file, ob.file))
  {
    hide IsNoreturn, IsLeastClobbers, Settled, RetsBounded, CallSupplied;
    assert Agree(a, b, HostSees(p, g));
    AgreeRestrict(a, b, HostSees(p, g));
  }
}
