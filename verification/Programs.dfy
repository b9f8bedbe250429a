/** The statement graph scripts/register_locals.py parses a generated function into,
    and the whole program the analysis runs over. */
module Programs {
  import opened Registers

  datatype Name =
    | Named(text: string)
    | SaveGprLr(first: nat)        // __savegprlr_N
    | SaveRestore(text: string)    // every other save or restore helper

  datatype Kind = PLAIN | CALL | ICALL | EXIT | BRANCH

  /** One statement. uses are read (or written in part), defs are overwritten whole,
      writes are all it may change. hostReads and hostWrites are what an inline helper
      handed the context touches there. leaves tells a return from a throw, and switches
      one that loads the stack pointer of another frame. */
  datatype Node = Node(
    kind: Kind,
    uses: set<Reg>,
    defs: set<Reg>,
    writes: set<Reg>,
    saves: set<Reg>,
    hostReads: set<Reg>,
    hostWrites: set<Reg>,
    succ: seq<nat>,
    callee: Name,
    site: set<Reg>,
    leaves: bool,
    switches: bool)

  datatype Function = Function(nodes: seq<Node>, referenced: set<Reg>, written: set<Reg>, saved: set<Reg>)

  datatype Program = Program(
    functions: map<Name, Function>,
    localised: set<Reg>,
    host: map<Name, set<Reg>>,
    universe: set<Reg>)

  /** Imports that unwind instead of returning. */
  const NORETURN_IMPORTS: set<Name> := {
    Named("__imp__KeBugCheck"), Named("__imp__KeBugCheckEx"), Named("__imp__RtlRaiseException"),
    Named("__imp__HalReturnToFirmware"), Named("__imp__ExTerminateThread"), Named("__imp__RtlUnwind") }

  predicate IsSaveRestore(name: Name) {
    !name.Named?
  }

  predicate Drops(p: Program) {
    NONVOLATILE <= p.localised
  }

  /** A save or restore helper whose calls the conversion removes. */
  predicate Dropped(p: Program, name: Name) {
    Drops(p) && IsSaveRestore(name)
  }

  /** Helpers are those the names say, and their calls go when every register they save is a local. */
  lemma DroppedIs(p: Program, name: Name)
    ensures Dropped(p, name) <==>
      (name.SaveGprLr? || name.SaveRestore?) && forall r | r in NONVOLATILE :: r in p.localised
  {
  }

  /** What parse builds: every edge stays in the function and only a branch has a choice. */
  predicate WellFormedNodes(nodes: seq<Node>) {
    && nodes != []
    && forall i | 0 <= i < |nodes| :: WellFormedNode(nodes, nodes[i])
  }

  predicate WellFormedNode(nodes: seq<Node>, n: Node) {
    && (forall s | s in n.succ :: s < |nodes|)
    && (n.kind == EXIT ==> n.succ == [])
    && (n.kind == BRANCH ==> |n.succ| > 0)
    && (n.kind in {PLAIN, CALL, ICALL} ==> |n.succ| == 1)
    && (n.kind == BRANCH ==> n.defs == {} && n.writes == {})
    && n.defs <= n.writes <= n.uses + n.defs
    && n.hostReads <= n.uses
    && n.hostWrites <= n.defs
    && n.uses * n.hostWrites <= n.hostReads
    && n.hostReads * n.writes <= n.hostWrites
    && Widen(n.hostWrites) == n.hostWrites
  }

  function CalleesOf(nodes: seq<Node>): set<Name> {
    set n | n in nodes && n.kind == CALL :: n.callee
  }

  /** A statement writes what its line names, or what an inline helper writes for it. */
  predicate WritesNamed(code: Function) {
    forall n | n in code.nodes && n.kind == PLAIN :: n.writes - n.hostWrites <= code.referenced
  }

  predicate WellFormed(p: Program) {
    && (forall f | f in p.functions :: WellFormedNodes(p.functions[f].nodes))
    && (forall f | f in p.functions :: WritesNamed(p.functions[f]))
    && Selected(p.localised)
    && (forall f | f in p.functions :: f !in NORETURN_IMPORTS)
    && (forall f | f in p.functions :: forall r | r in p.functions[f].saved :: Saveable(r))
  }

  // ------------------------------------------------------------ paths

  /** An edge a run can take when calls of the avoided functions do not come back. */
  predicate Edge(nodes: seq<Node>, avoid: set<Name>, i: nat, j: nat) {
    && i < |nodes|
    && j < |nodes|
    && nodes[i].kind != EXIT
    && !(nodes[i].kind == CALL && nodes[i].callee in avoid)
    && j in nodes[i].succ
  }

  predicate Path(nodes: seq<Node>, avoid: set<Name>, path: seq<nat>) {
    && path != []
    && path[0] == 0
    && (forall i | i in path :: i < |nodes|)
    && forall k | 0 <= k < |path| - 1 :: Edge(nodes, avoid, path[k], path[k + 1])
  }

  ghost predicate Reachable(nodes: seq<Node>, avoid: set<Name>, i: nat) {
    exists path :: Path(nodes, avoid, path) && path[|path| - 1] == i
  }

  lemma EntryReachable(nodes: seq<Node>, avoid: set<Name>)
    requires nodes != []
    ensures Reachable(nodes, avoid, 0)
  {
    assert Path(nodes, avoid, [0]);
  }

  lemma ReachableStep(nodes: seq<Node>, avoid: set<Name>, i: nat, j: nat)
    requires Reachable(nodes, avoid, i) && Edge(nodes, avoid, i, j)
    ensures Reachable(nodes, avoid, j)
  {
    var path :| Path(nodes, avoid, path) && path[|path| - 1] == i;
    var longer := path + [j];
    assert forall k | 0 <= k < |longer| - 1 :: Edge(nodes, avoid, longer[k], longer[k + 1]) by {
      forall k | 0 <= k < |longer| - 1 ensures Edge(nodes, avoid, longer[k], longer[k + 1]) {
        if k < |path| - 1 {
          assert longer[k] == path[k] && longer[k + 1] == path[k + 1];
        }
      }
    }
    assert Path(nodes, avoid, longer);
  }

  /** A set holding the entry and closed under edges holds everything reachable. */
  lemma {:induction false} ClosedHoldsPath(nodes: seq<Node>, avoid: set<Name>, closed: set<nat>, path: seq<nat>)
    requires 0 in closed
    requires forall i, j | i in closed && Edge(nodes, avoid, i, j) :: j in closed
    requires Path(nodes, avoid, path)
    ensures path[|path| - 1] in closed
  {
    if |path| > 1 {
      var shorter := path[..|path| - 1];
      assert forall k | 0 <= k < |shorter| - 1 :: Edge(nodes, avoid, shorter[k], shorter[k + 1]) by {
        forall k | 0 <= k < |shorter| - 1 ensures Edge(nodes, avoid, shorter[k], shorter[k + 1]) {
          assert shorter[k] == path[k] && shorter[k + 1] == path[k + 1];
        }
      }
      assert forall i | i in shorter :: i in path;
      assert Path(nodes, avoid, shorter);
      ClosedHoldsPath(nodes, avoid, closed, shorter);
      assert Edge(nodes, avoid, path[|path| - 2], path[|path| - 1]);
    }
  }
}
