/** Whole-program facts found by sweeping the functions until nothing changes:
    which never return, and which nonvolatile registers a call may leave changed. */
module CallGraph {
  import opened Registers
  import opened Programs

  // ------------------------------------------------------------ searching a graph

  function Elements(s: seq<nat>): set<nat> {
    set i | i in s
  }

  function Nodes(nodes: seq<Node>): set<nat> {
    set i: nat {:trigger nodes[i]} | i < |nodes| :: i
  }

  /** Everything seen is reachable, and what is no longer on the stack has its edges followed. */
  ghost predicate Searching(nodes: seq<Node>, avoid: set<Name>, seen: set<nat>, stack: seq<nat>) {
    && 0 in seen
    && Elements(stack) <= seen <= Nodes(nodes)
    && (forall i | i in seen :: Reachable(nodes, avoid, i))
    && forall i, j | Edge(nodes, avoid, i, j) && i in seen && i !in Elements(stack) :: j in seen
  }

  lemma SearchDone(nodes: seq<Node>, avoid: set<Name>, seen: set<nat>)
    requires Searching(nodes, avoid, seen, [])
    ensures forall i :: i in seen <==> Reachable(nodes, avoid, i)
  {
    forall i | Reachable(nodes, avoid, i) ensures i in seen {
      var path :| Path(nodes, avoid, path) && path[|path| - 1] == i;
      ClosedHoldsPath(nodes, avoid, seen, path);
    }
  }

  lemma SearchStep(nodes: seq<Node>, avoid: set<Name>, seen: set<nat>, stack: seq<nat>, seen': set<nat>,
      stack': seq<nat>)
    requires WellFormedNodes(nodes)
    requires Searching(nodes, avoid, seen, stack) && stack != []
    requires var i := stack[|stack| - 1];
      && (forall j | Edge(nodes, avoid, i, j) :: j in seen')
      && (forall j | j in seen' - seen :: Edge(nodes, avoid, i, j))
      && Elements(stack') == Elements(stack[..|stack| - 1]) + (seen' - seen)
      && seen <= seen'
    ensures Searching(nodes, avoid, seen', stack')
  {
    hide Reachable;
    var i := stack[|stack| - 1];
    assert stack == stack[..|stack| - 1] + [i];
    ElementsAppend(stack[..|stack| - 1], i);
    forall j | j in seen' ensures Reachable(nodes, avoid, j) && j < |nodes| {
      if j !in seen {
        ReachableStep(nodes, avoid, i, j);
      } else {
        assert j in Nodes(nodes);
      }
    }
    forall j | j in seen' ensures j in Nodes(nodes) {
      assert nodes[j] == nodes[j];
    }
  }

  lemma ElementsAppend(s: seq<nat>, x: nat)
    ensures Elements(s + [x]) == Elements(s) + {x}
  {
  }

  /** Pushes the successors not seen yet. */
  method Push(succ: seq<nat>, seen: set<nat>, stack: seq<nat>) returns (seen': set<nat>, stack': seq<nat>)
    ensures seen' == seen + Elements(succ)
    ensures Elements(stack') == Elements(stack) + (seen' - seen)
    ensures |stack'| == |stack| || seen < seen'
  {
    seen', stack' := seen, stack;
    for k := 0 to |succ|
      invariant seen' == seen + Elements(succ[..k])
      invariant Elements(stack') == Elements(stack) + (seen' - seen)
      invariant |stack'| == |stack| || seen < seen'
    {
      assert succ[..k + 1] == succ[..k] + [succ[k]];
      if succ[k] !in seen' {
        ElementsAppend(stack', succ[k]);
        seen' := seen' + {succ[k]};
        stack' := stack' + [succ[k]];
      }
    }
    assert succ[..|succ|] == succ;
  }

  // ------------------------------------------------------------ never returning

  ghost predicate ReturnsAt(nodes: seq<Node>, avoid: set<Name>, i: nat) {
    Reachable(nodes, avoid, i) && i < |nodes| && nodes[i].kind == EXIT && nodes[i].leaves
  }

  /** Some path of the function reaches a return without needing an avoided call to come back. */
  ghost predicate CanReturn(nodes: seq<Node>, avoid: set<Name>) {
    exists i :: ReturnsAt(nodes, avoid, i)
  }

  lemma {:induction false} AvoidingMoreReachesLess(nodes: seq<Node>, avoid: set<Name>, more: set<Name>)
    requires avoid <= more
    ensures CanReturn(nodes, more) ==> CanReturn(nodes, avoid)
  {
    if CanReturn(nodes, more) {
      var i :| ReturnsAt(nodes, more, i);
      var path :| Path(nodes, more, path) && path[|path| - 1] == i;
      assert forall k | 0 <= k < |path| - 1 :: Edge(nodes, more, path[k], path[k + 1]);
      assert Path(nodes, avoid, path);
      assert ReturnsAt(nodes, avoid, i);
    }
  }

  ghost predicate NoreturnClosed(p: Program, names: set<Name>) {
    && NORETURN_IMPORTS <= names
    && forall f | f in p.functions && !CanReturn(p.functions[f].nodes, names) :: f in names
  }

  /** The least set of names with the imports in it and every function all of whose
      paths are cut off by calls into the set. */
  ghost predicate IsNoreturn(p: Program, names: set<Name>) {
    && names <= NORETURN_IMPORTS + p.functions.Keys
    && NoreturnClosed(p, names)
    && (forall f | f in p.functions && f in names :: !CanReturn(p.functions[f].nodes, names))
    && forall other | NoreturnClosed(p, other) :: names <= other
  }

  /** No return among the nodes the search has popped. */
  ghost predicate NoneReturns(nodes: seq<Node>, popped: set<nat>) {
    forall i | i in popped :: i < |nodes| ==> !(nodes[i].kind == EXIT && nodes[i].leaves)
  }

  /** Pops one node of the search for a return. */
  method Visit(nodes: seq<Node>, avoid: set<Name>, seen: set<nat>, stack: seq<nat>)
      returns (seen': set<nat>, stack': seq<nat>, found: bool)
    requires WellFormedNodes(nodes)
    requires Searching(nodes, avoid, seen, stack) && stack != []
    requires NoneReturns(nodes, seen - Elements(stack))
    ensures found ==> CanReturn(nodes, avoid)
    ensures !found ==> Searching(nodes, avoid, seen', stack') && NoneReturns(nodes, seen' - Elements(stack'))
    ensures seen < seen' <= Nodes(nodes) || (seen == seen' && |stack'| < |stack|)
  {
    hide Reachable;
    var i := stack[|stack| - 1];
    assert stack == stack[..|stack| - 1] + [i];
    ElementsAppend(stack[..|stack| - 1], i);
    assert i in Elements(stack) && i in Nodes(nodes);
    seen', stack', found := seen, stack[..|stack| - 1], false;
    var node := nodes[i];
    if node.kind == EXIT {
      found := node.leaves;
      assert node.leaves ==> ReturnsAt(nodes, avoid, i);
    } else if !(node.kind == CALL && node.callee in avoid) {
      seen', stack' := Push(node.succ, seen, stack');
    }
    SearchStep(nodes, avoid, seen, stack, seen', stack');
  }

  /** The search of find_noreturn: stops at the first return it pops. */
  method Returns(nodes: seq<Node>, avoid: set<Name>) returns (found: bool)
    requires WellFormedNodes(nodes)
    ensures found <==> CanReturn(nodes, avoid)
  {
    var seen: set<nat>, stack: seq<nat> := {0}, [0];
    found := false;
    EntryReachable(nodes, avoid);
    assert nodes[0] == nodes[0] && 0 in Nodes(nodes);
    while stack != [] && !found
      invariant found ==> CanReturn(nodes, avoid)
      invariant !found ==> Searching(nodes, avoid, seen, stack) && NoneReturns(nodes, seen - Elements(stack))
      decreases Nodes(nodes) - seen, |stack|
    {
      seen, stack, found := Visit(nodes, avoid, seen, stack);
    }
    if !found {
      SearchDone(nodes, avoid, seen);
    }
  }

  ghost predicate CutOff(p: Program, names: set<Name>) {
    && NORETURN_IMPORTS <= names <= NORETURN_IMPORTS + p.functions.Keys
    && (forall f | f in p.functions && f in names :: !CanReturn(p.functions[f].nodes, names))
    && forall other | NoreturnClosed(p, other) :: names <= other
  }

  ghost predicate Comes(p: Program, noreturn: set<Name>, f: Name) {
    f in p.functions && CanReturn(p.functions[f].nodes, noreturn)
  }

  /** One sweep of find_noreturn over the functions in order. */
  method SweepNoreturn(p: Program, order: seq<Name>, start: set<Name>) returns (noreturn: set<Name>, changed: bool)
    requires WellFormed(p) && CutOff(p, start)
    requires forall k | 0 <= k < |order| :: order[k] in p.functions
    ensures CutOff(p, noreturn)
    ensures if changed then start < noreturn else start == noreturn
    ensures !changed ==> forall k | 0 <= k < |order| && order[k] !in noreturn :: Comes(p, noreturn, order[k])
  {
    hide CutOff, CanReturn;
    noreturn, changed := start, false;
    for k := 0 to |order|
      invariant CutOff(p, noreturn)
      invariant if changed then start < noreturn else start == noreturn
      invariant !changed ==> forall m | 0 <= m < k && order[m] !in noreturn :: Comes(p, noreturn, order[m])
    {
      var name := order[k];
      if name !in noreturn {
        var comes := Returns(p.functions[name].nodes, noreturn);
        if !comes {
          Joins(p, noreturn, name);
          noreturn := noreturn + {name};
          changed := true;
        }
      }
    }
  }

  /** Program.find_noreturn. */
  method FindNoreturn(p: Program, order: seq<Name>) returns (noreturn: set<Name>)
    requires WellFormed(p)
    requires forall f :: f in order <==> f in p.functions
    ensures IsNoreturn(p, noreturn)
  {
    noreturn := NORETURN_IMPORTS;
    var changed := true;
    while changed
      invariant CutOff(p, noreturn)
      invariant !changed ==> forall f | f in order && f !in noreturn :: Comes(p, noreturn, f)
      decreases NORETURN_IMPORTS + p.functions.Keys - noreturn, changed
    {
      assert forall k | 0 <= k < |order| :: order[k] in order;
      noreturn, changed := SweepNoreturn(p, order, noreturn);
    }
  }

  lemma Joins(p: Program, noreturn: set<Name>, name: Name)
    requires name in p.functions && !CanReturn(p.functions[name].nodes, noreturn)
    requires CutOff(p, noreturn)
    ensures CutOff(p, noreturn + {name})
  {
    forall f | f in p.functions && f in noreturn + {name} ensures !CanReturn(p.functions[f].nodes, noreturn + {name}) {
      AvoidingMoreReachesLess(p.functions[f].nodes, noreturn, noreturn + {name});
    }
    forall other | NoreturnClosed(p, other) ensures name in other {
      AvoidingMoreReachesLess(p.functions[name].nodes, noreturn, other);
    }
  }

  // ------------------------------------------------------------ writes and saves

  ghost predicate WritesAt(nodes: seq<Node>, i: nat, r: Reg) {
    i < |nodes| && nodes[i].kind == PLAIN && r in nodes[i].writes
  }

  ghost predicate SavesAt(nodes: seq<Node>, i: nat, r: Reg) {
    i < |nodes| && nodes[i].kind in {PLAIN, CALL} && r in nodes[i].saves
  }

  /** written is exactly what a reachable statement may change of the registers a prologue may save. */
  ghost predicate WritesFound(nodes: seq<Node>, written: set<Reg>) {
    && (forall r | r in written :: Saveable(r) && exists j :: Reachable(nodes, {}, j) && WritesAt(nodes, j, r))
    && forall j, r | WritesAt(nodes, j, r) && Reachable(nodes, {}, j) && Saveable(r) :: r in written
  }

  ghost predicate SavesFound(nodes: seq<Node>, saved: set<Reg>) {
    && (forall r | r in saved :: Saveable(r) && exists j :: Reachable(nodes, {}, j) && SavesAt(nodes, j, r))
    && forall j, r | SavesAt(nodes, j, r) && Reachable(nodes, {}, j) && Saveable(r) :: r in saved
  }

  function SaveablePart(s: set<Reg>): set<Reg> {
    set r | r in s && Saveable(r)
  }

  method ReachableNodes(nodes: seq<Node>) returns (seen: set<nat>)
    requires WellFormedNodes(nodes)
    ensures forall i :: i in seen <==> Reachable(nodes, {}, i)
    ensures seen <= Nodes(nodes)
  {
    hide Reachable;
    var stack: seq<nat> := [0];
    seen := {0};
    EntryReachable(nodes, {});
    assert nodes[0] == nodes[0] && 0 in Nodes(nodes);
    while stack != []
      invariant Searching(nodes, {}, seen, stack)
      decreases Nodes(nodes) - seen, |stack|
    {
      ghost var was, before := seen, stack;
      var i := stack[|stack| - 1];
      assert i in Elements(stack) && i in Nodes(nodes);
      seen, stack := Push(nodes[i].succ, seen, stack[..|stack| - 1]);
      SearchStep(nodes, {}, was, before, seen, stack);
    }
    SearchDone(nodes, {}, seen);
  }

  /** Some statement the function can reach switches to another frame. */
  ghost predicate SwitchesFrame(nodes: seq<Node>) {
    exists j :: Reachable(nodes, {}, j) && SwitchesAt(nodes, j)
  }

  predicate SwitchesAt(nodes: seq<Node>, i: nat) {
    i < |nodes| && nodes[i].kind == PLAIN && nodes[i].switches
  }

  ghost function WritesOf(nodes: seq<Node>, done: set<nat>): set<Reg> {
    set j: nat, r | j in done && j < |nodes| && r in nodes[j].writes && WritesAt(nodes, j, r) :: r
  }

  ghost function SavesOf(nodes: seq<Node>, done: set<nat>): set<Reg> {
    set j: nat, r | j in done && j < |nodes| && r in nodes[j].saves && SavesAt(nodes, j, r) :: r
  }

  lemma OneMore(nodes: seq<Node>, done: set<nat>, k: nat)
    requires k < |nodes|
    ensures WritesOf(nodes, done + {k}) == WritesOf(nodes, done) + if nodes[k].kind == PLAIN
      then nodes[k].writes else {}
    ensures SavesOf(nodes, done + {k}) ==
      SavesOf(nodes, done) + if nodes[k].kind in {PLAIN, CALL} then nodes[k].saves else {}
  {
    assert forall r :: WritesAt(nodes, k, r) <==> nodes[k].kind == PLAIN && r in nodes[k].writes;
    assert forall r :: SavesAt(nodes, k, r) <==> nodes[k].kind in {PLAIN, CALL} && r in nodes[k].saves;
  }

  /** What is known once the statements of done were looked at. */
  ghost predicate Looked(nodes: seq<Node>, done: set<nat>, written: set<Reg>, saved: set<Reg>, switched: bool) {
    && written == (if switched then {} else WritesOf(nodes, done))
    && saved == SavesOf(nodes, done)
    && (switched <==> exists j :: j in done && SwitchesAt(nodes, j))
  }

  method LookAt(nodes: seq<Node>, i: nat, ghost done: set<nat>, written: set<Reg>, saved: set<Reg>)
      returns (written': set<Reg>, saved': set<Reg>, switched: bool)
    requires i < |nodes| && Looked(nodes, done, written, saved, false)
    ensures Looked(nodes, done + {i}, written', saved', switched)
  {
    hide WritesOf, SavesOf;
    OneMore(nodes, done, i);
    written', saved', switched := written, saved, false;
    if nodes[i].kind == PLAIN {
      written' := written' + nodes[i].writes;
    }
    if nodes[i].kind in {PLAIN, CALL} {
      saved' := saved' + nodes[i].saves;
    }
    if SwitchesAt(nodes, i) {
      assert i in done + {i};
      written', switched := {}, true;
    }
  }

  /** written_and_saved: what the statements reachable from the entry write and save, looked
      at in no given order. The registers loaded at a switch to another frame are that
      frame's, so such a function counts as writing none, and the look stops there. */
  method WrittenAndSaved(nodes: seq<Node>) returns (written: set<Reg>, saved: set<Reg>)
    requires WellFormedNodes(nodes)
    ensures !SwitchesFrame(nodes) ==> WritesFound(nodes, written) && SavesFound(nodes, saved)
    ensures SwitchesFrame(nodes) ==> written == {} && SomeSavesFound(nodes, saved)
  {
    var seen := ReachableNodes(nodes);
    var left, switched := seen, false;
    ghost var done: set<nat> := {};
    written, saved := {}, {};
    hide *;
    NothingFound(nodes);
    while left != {} && !switched
      invariant done !! left && seen == done + left && seen <= Nodes(nodes)
      invariant Looked(nodes, done, written, saved, switched)
      decreases |left|
    {
      var i :| i in left;
      InNodes(nodes, i);
      written, saved, switched := LookAt(nodes, i, done, written, saved);
      done, left := done + {i}, left - {i};
    }
    AllFound(nodes, seen, done, written, saved, switched);
    written, saved := SaveablePart(written), SaveablePart(saved);
  }

  ghost predicate SomeSavesFound(nodes: seq<Node>, saved: set<Reg>) {
    forall r | r in saved :: Saveable(r) && exists j :: Reachable(nodes, {}, j) && SavesAt(nodes, j, r)
  }

  lemma NothingFound(nodes: seq<Node>)
    ensures Looked(nodes, {}, {}, {}, false)
  {
  }

  lemma InNodes(nodes: seq<Node>, i: nat)
    requires i in Nodes(nodes)
    ensures i < |nodes|
  {
  }

  lemma AllFound(nodes: seq<Node>, seen: set<nat>, done: set<nat>, written: set<Reg>, saved: set<Reg>, switched: bool)
    requires forall i :: i in seen <==> Reachable(nodes, {}, i)
    requires done <= seen && (switched || done == seen)
    requires Looked(nodes, done, written, saved, switched)
    ensures !SwitchesFrame(nodes) ==>
      WritesFound(nodes, SaveablePart(written)) && SavesFound(nodes, SaveablePart(saved))
    ensures SwitchesFrame(nodes) ==> SaveablePart(written) == {} && SomeSavesFound(nodes, SaveablePart(saved))
  {
    hide Reachable;
  }

  // ------------------------------------------------------------ clobbers

  type RegSets = map<Name, set<Reg>>

  /** What the direct callees that come back leave changed. */
  function CalleesLeave(p: Program, noreturn: set<Name>, clobbers: RegSets, f: Name): set<Reg>
    requires f in p.functions
  {
    set c, r | c in CalleesOf(p.functions[f].nodes) && c in p.functions && c in clobbers && c !in noreturn
      && r in clobbers[c] :: r
  }

  function ClobberEquation(p: Program, noreturn: set<Name>, clobbers: RegSets, f: Name): set<Reg>
    requires f in p.functions
  {
    p.functions[f].written + CalleesLeave(p, noreturn, clobbers, f) - p.functions[f].saved
  }

  /** The save and restore helpers are the convention itself: they leave nothing changed. */
  ghost predicate IsClobbers(p: Program, noreturn: set<Name>, clobbers: RegSets) {
    && clobbers.Keys == p.functions.Keys
    && forall f | f in p.functions ::
        clobbers[f] == if IsSaveRestore(f) then {} else ClobberEquation(p, noreturn, clobbers, f)
  }

  ghost predicate SetsBelow(a: RegSets, b: RegSets) {
    && a.Keys == b.Keys
    && forall f | f in a :: a[f] <= b[f]
  }

  ghost predicate IsLeastClobbers(p: Program, noreturn: set<Name>, clobbers: RegSets) {
    && IsClobbers(p, noreturn, clobbers)
    && forall other | IsClobbers(p, noreturn, other) :: SetsBelow(clobbers, other)
  }

  ghost function MissingSets(sets: RegSets, bound: set<Reg>): set<(Name, Reg)> {
    set f, r | f in sets && r in bound && r !in sets[f] :: (f, r)
  }

  function AllWritten(p: Program): (all: set<Reg>)
    ensures forall f | f in p.functions :: p.functions[f].written <= all
  {
    set f, r | f in p.functions && r in p.functions[f].written :: r
  }

  ghost predicate ClobbersAscending(p: Program, noreturn: set<Name>, clobbers: RegSets) {
    && clobbers.Keys == p.functions.Keys
    && (forall f | f in p.functions && IsSaveRestore(f) :: clobbers[f] == {})
    && (forall f | f in p.functions && !IsSaveRestore(f) ::
        p.functions[f].written - p.functions[f].saved <= clobbers[f] <= ClobberEquation(p, noreturn, clobbers, f))
    && (forall f | f in p.functions :: clobbers[f] <= AllWritten(p))
    && forall other | IsClobbers(p, noreturn, other) :: SetsBelow(clobbers, other)
  }

  lemma LeaveMonotone(p: Program, noreturn: set<Name>, a: RegSets, b: RegSets, f: Name)
    requires f in p.functions && SetsBelow(a, b)
    ensures CalleesLeave(p, noreturn, a, f) <= CalleesLeave(p, noreturn, b, f)
  {
    forall r | r in CalleesLeave(p, noreturn, a, f) ensures r in CalleesLeave(p, noreturn, b, f) {
      var c :| c in CalleesOf(p.functions[f].nodes) && c in p.functions && c in a && c !in noreturn && r in a[c];
      assert r in b[c];
    }
  }

  lemma LeaveWithin(p: Program, noreturn: set<Name>, clobbers: RegSets, f: Name)
    requires f in p.functions
    requires forall c | c in clobbers :: clobbers[c] <= AllWritten(p)
    ensures CalleesLeave(p, noreturn, clobbers, f) <= AllWritten(p)
  {
  }

  lemma ClobbersGrow(p: Program, noreturn: set<Name>, clobbers: RegSets, f: Name)
    requires ClobbersAscending(p, noreturn, clobbers) && f in p.functions && !IsSaveRestore(f)
    requires clobbers[f] != ClobberEquation(p, noreturn, clobbers, f)
    ensures var next := clobbers[f := ClobberEquation(p, noreturn, clobbers, f)];
      && ClobbersAscending(p, noreturn, next)
      && MissingSets(next, AllWritten(p)) < MissingSets(clobbers, AllWritten(p))
  {
    hide CalleesLeave, CalleesOf;
    LeaveWithin(p, noreturn, clobbers, f);
    var value := ClobberEquation(p, noreturn, clobbers, f);
    var next := clobbers[f := value];
    assert value <= AllWritten(p);
    assert SetsBelow(clobbers, next);
    forall g | g in p.functions ensures CalleesLeave(p, noreturn, clobbers, g) <= CalleesLeave(p, noreturn, next, g) {
      LeaveMonotone(p, noreturn, clobbers, next, g);
    }
    forall other | IsClobbers(p, noreturn, other) ensures SetsBelow(next, other) {
      LeaveMonotone(p, noreturn, clobbers, other, f);
    }
    var r :| r in value && r !in clobbers[f];
    assert (f, r) in MissingSets(clobbers, AllWritten(p)) && (f, r) !in MissingSets(next, AllWritten(p));
  }

  ghost predicate ClobbersSettled(p: Program, noreturn: set<Name>, clobbers: RegSets, f: Name) {
    f in p.functions && f in clobbers &&
      (IsSaveRestore(f) || clobbers[f] == ClobberEquation(p, noreturn, clobbers, f))
  }

  /** One sweep of find_clobbers over the functions in order. */
  method SweepClobbers(p: Program, order: seq<Name>, noreturn: set<Name>, start: RegSets)
      returns (clobbers: RegSets, changed: bool)
    requires ClobbersAscending(p, noreturn, start)
    requires forall k | 0 <= k < |order| :: order[k] in p.functions
    ensures ClobbersAscending(p, noreturn, clobbers)
    ensures if changed then MissingSets(clobbers, AllWritten(p)) < MissingSets(start, AllWritten(p))
      else clobbers == start
    ensures !changed ==> forall m | 0 <= m < |order| :: ClobbersSettled(p, noreturn, clobbers, order[m])
  {
    hide ClobberEquation, IsClobbers;
    clobbers, changed := start, false;
    for k := 0 to |order|
      invariant ClobbersAscending(p, noreturn, clobbers)
      invariant if changed then MissingSets(clobbers, AllWritten(p)) < MissingSets(start, AllWritten(p))
        else clobbers == start
      invariant !changed ==> forall m | 0 <= m < k :: ClobbersSettled(p, noreturn, clobbers, order[m])
    {
      var name := order[k];
      if !IsSaveRestore(name) {
        var value := clobbers[name] + CalleesLeave(p, noreturn, clobbers, name) - p.functions[name].saved;
        SameEquation(p, noreturn, clobbers, name);
        if value != clobbers[name] {
          ClobbersGrow(p, noreturn, clobbers, name);
          clobbers := clobbers[name := value];
          changed := true;
        }
      }
    }
  }

  /** Adding the callees' sets to the current one is the whole equation: what is written was there first. */
  lemma SameEquation(p: Program, noreturn: set<Name>, clobbers: RegSets, f: Name)
    requires ClobbersAscending(p, noreturn, clobbers) && f in p.functions && !IsSaveRestore(f)
    ensures clobbers[f] + CalleesLeave(p, noreturn, clobbers, f) - p.functions[f].saved
      == ClobberEquation(p, noreturn, clobbers, f)
  {
  }

  /** Program.find_clobbers. */
  method FindClobbers(p: Program, order: seq<Name>, noreturn: set<Name>) returns (clobbers: RegSets)
    requires forall f :: f in order <==> f in p.functions
    ensures IsLeastClobbers(p, noreturn, clobbers)
  {
    clobbers := map f | f in p.functions :: if IsSaveRestore(f) then {}
      else p.functions[f].written - p.functions[f].saved;
    var changed := true;
    while changed
      invariant ClobbersAscending(p, noreturn, clobbers)
      invariant !changed ==> forall f | f in order :: ClobbersSettled(p, noreturn, clobbers, f)
      decreases MissingSets(clobbers, AllWritten(p)), changed
    {
      assert forall k | 0 <= k < |order| :: order[k] in order;
      clobbers, changed := SweepClobbers(p, order, noreturn, clobbers);
    }
  }
}
