/** Backward liveness over one statement graph: the worklist of Program.liveness,
    its equations, and what the equations mean along paths. */
module Liveness {
  import opened Registers
  import opened Programs

  type Masks = seq<set<Reg>>

  /** What is live at any of the successors. */
  function Out(succ: seq<nat>, live: Masks): set<Reg> {
    set s: nat, r | s in succ && s < |live| && r in live[s] :: r
  }

  lemma OutAgrees(succ: seq<nat>, a: Masks, b: Masks)
    requires |a| == |b|
    requires forall s: nat | s in succ && s < |a| :: a[s] <= b[s]
    ensures Out(succ, a) <= Out(succ, b)
  {
    forall r | r in Out(succ, a) ensures r in Out(succ, b) {
      var s: nat :| s in succ && s < |a| && r in a[s];
      assert r in b[s];
    }
  }

  ghost predicate Graph(nodes: seq<Node>, gen: Masks, kill: Masks) {
    && |gen| == |kill| == |nodes|
    && forall i, s: nat | 0 <= i < |nodes| && s in nodes[i].succ :: s < |nodes|
  }

  function Equation(nodes: seq<Node>, gen: Masks, kill: Masks, live: Masks, i: nat): set<Reg>
    requires i < |nodes| && |gen| == |kill| == |nodes|
  {
    gen[i] + (Out(nodes[i].succ, live) - kill[i])
  }

  ghost predicate IsSolution(nodes: seq<Node>, gen: Masks, kill: Masks, live: Masks)
    requires |gen| == |kill| == |nodes|
  {
    && |live| == |nodes|
    && forall i | 0 <= i < |nodes| :: live[i] == Equation(nodes, gen, kill, live, i)
  }

  ghost predicate Below(a: Masks, b: Masks) {
    && |a| == |b|
    && forall i | 0 <= i < |a| :: a[i] <= b[i]
  }

  ghost predicate IsLeastSolution(nodes: seq<Node>, gen: Masks, kill: Masks, live: Masks)
    requires |gen| == |kill| == |nodes|
  {
    && IsSolution(nodes, gen, kill, live)
    && forall other: Masks | IsSolution(nodes, gen, kill, other) :: Below(live, other)
  }

  // ------------------------------------------------------------ meaning

  /** Along this path r is read at the end and overwritten nowhere before. */
  predicate ReadAlong(nodes: seq<Node>, gen: Masks, kill: Masks, r: Reg, path: seq<nat>)
    requires |gen| == |kill| == |nodes|
  {
    && path != []
    && (forall k | 0 <= k < |path| :: path[k] < |nodes|)
    && r in gen[path[|path| - 1]]
    && (forall k | 0 <= k < |path| - 1 :: path[k + 1] in nodes[path[k]].succ && r !in kill[path[k]])
  }

  /** r may be read from i on before it is overwritten. */
  ghost predicate Live(nodes: seq<Node>, gen: Masks, kill: Masks, i: nat, r: Reg)
    requires |gen| == |kill| == |nodes|
  {
    exists path :: ReadAlong(nodes, gen, kill, r, path) && path[0] == i
  }

  lemma ReadAlongTail(nodes: seq<Node>, gen: Masks, kill: Masks, r: Reg, path: seq<nat>)
    requires |gen| == |kill| == |nodes|
    requires ReadAlong(nodes, gen, kill, r, path) && |path| > 1
    ensures ReadAlong(nodes, gen, kill, r, path[1..])
    ensures path[1] in nodes[path[0]].succ && r !in kill[path[0]]
  {
    var rest := path[1..];
    forall k | 0 <= k < |rest| - 1 ensures rest[k + 1] in nodes[rest[k]].succ && r !in kill[rest[k]] {
      assert rest[k] == path[k + 1] && rest[k + 1] == path[k + 1 + 1];
    }
    assert path[0 + 1] in nodes[path[0]].succ;
  }

  lemma LiveEarlier(nodes: seq<Node>, gen: Masks, kill: Masks, i: nat, s: nat, r: Reg)
    requires |gen| == |kill| == |nodes| && i < |nodes|
    requires s in nodes[i].succ && r !in kill[i] && Live(nodes, gen, kill, s, r)
    ensures Live(nodes, gen, kill, i, r)
  {
    var rest :| ReadAlong(nodes, gen, kill, r, rest) && rest[0] == s;
    var path := [i] + rest;
    forall k | 0 <= k < |path| - 1 ensures path[k + 1] in nodes[path[k]].succ && r !in kill[path[k]] {
      if k > 0 {
        assert path[k] == rest[k - 1] && path[k + 1] == rest[k - 1 + 1];
      }
    }
    assert ReadAlong(nodes, gen, kill, r, path);
  }

  /** One step of Live: read here, or not overwritten here and live at a successor. */
  lemma LiveUnfolds(nodes: seq<Node>, gen: Masks, kill: Masks, i: nat, r: Reg)
    requires |gen| == |kill| == |nodes| && i < |nodes|
    ensures Live(nodes, gen, kill, i, r) <==>
      r in gen[i] || (r !in kill[i] && exists s: nat | s in nodes[i].succ :: Live(nodes, gen, kill, s, r))
  {
    if Live(nodes, gen, kill, i, r) {
      var path :| ReadAlong(nodes, gen, kill, r, path) && path[0] == i;
      if |path| > 1 {
        ReadAlongTail(nodes, gen, kill, r, path);
        assert path[1..][0] == path[1];
        assert Live(nodes, gen, kill, path[1], r);
      }
    }
    if r in gen[i] {
      assert ReadAlong(nodes, gen, kill, r, [i]);
    } else if r !in kill[i] && exists s: nat | s in nodes[i].succ :: Live(nodes, gen, kill, s, r) {
      var s: nat :| s in nodes[i].succ && Live(nodes, gen, kill, s, r);
      LiveEarlier(nodes, gen, kill, i, s, r);
    }
  }

  lemma {:induction false} SolutionHoldsReads(
      nodes: seq<Node>, gen: Masks, kill: Masks, live: Masks, r: Reg, path: seq<nat>)
    requires |gen| == |kill| == |nodes|
    requires IsSolution(nodes, gen, kill, live)
    requires ReadAlong(nodes, gen, kill, r, path)
    ensures r in live[path[0]]
  {
    assert live[path[0]] == Equation(nodes, gen, kill, live, path[0]);
    if |path| > 1 {
      ReadAlongTail(nodes, gen, kill, r, path);
      SolutionHoldsReads(nodes, gen, kill, live, r, path[1..]);
      assert r in Out(nodes[path[0]].succ, live);
    }
  }

  /** The least solution is exactly what some path reads before overwriting it. */
  lemma LeastSolutionIsLive(nodes: seq<Node>, gen: Masks, kill: Masks, live: Masks, i: nat, r: Reg)
    requires Graph(nodes, gen, kill) && i < |nodes|
    requires IsLeastSolution(nodes, gen, kill, live)
    ensures r in live[i] <==> Live(nodes, gen, kill, i, r)
  {
    var byPaths := seq(|nodes|, j requires 0 <= j < |nodes| => set q | q in live[j] && Live(nodes, gen, kill, j, q));
    forall j | 0 <= j < |nodes| ensures byPaths[j] == Equation(nodes, gen, kill, byPaths, j) {
      forall q ensures q in byPaths[j] <==> q in Equation(nodes, gen, kill, byPaths, j) {
        LiveUnfolds(nodes, gen, kill, j, q);
        LiveAreInSolution(nodes, gen, kill, live, q);
        assert q in byPaths[j] <==> Live(nodes, gen, kill, j, q);
        if s: nat :| s in nodes[j].succ && Live(nodes, gen, kill, s, q) {
          assert q in byPaths[s];
        }
      }
    }
    assert IsSolution(nodes, gen, kill, byPaths);
    assert live[i] <= byPaths[i];
    LiveAreInSolution(nodes, gen, kill, live, r);
  }

  lemma LiveAreInSolution(nodes: seq<Node>, gen: Masks, kill: Masks, live: Masks, r: Reg)
    requires Graph(nodes, gen, kill)
    requires IsSolution(nodes, gen, kill, live)
    ensures forall i | 0 <= i < |nodes| && Live(nodes, gen, kill, i, r) :: r in live[i]
  {
    forall i | 0 <= i < |nodes| && Live(nodes, gen, kill, i, r) ensures r in live[i] {
      var path :| ReadAlong(nodes, gen, kill, r, path) && path[0] == i;
      SolutionHoldsReads(nodes, gen, kill, live, r, path);
    }
  }

  // ------------------------------------------------------------ the worklist

  /** The bits still missing below a bound: what each change of the arrays uses up. */
  ghost function Missing(live: Masks, bound: set<Reg>): set<(nat, Reg)> {
    set i: nat, r | 0 <= i < |live| && r in bound && r !in live[i] :: (i, r)
  }

  lemma MissingShrinks(live: Masks, bound: set<Reg>, i: nat, value: set<Reg>)
    requires i < |live| && live[i] < value <= bound
    ensures Missing(live[i := value], bound) < Missing(live, bound)
  {
    var r :| r in value && r !in live[i];
    assert (i, r) in Missing(live, bound) && (i, r) !in Missing(live[i := value], bound);
    assert Missing(live[i := value], bound) <= Missing(live, bound) by {
      forall p | p in Missing(live[i := value], bound) ensures p in Missing(live, bound) {
      }
    }
  }

  function UnionOf(masks: Masks): (u: set<Reg>)
    ensures forall i | 0 <= i < |masks| :: masks[i] <= u
  {
    set i, r | 0 <= i < |masks| && r in masks[i] :: r
  }

  predicate HasEdge(nodes: seq<Node>, i: nat, s: nat) {
    i < |nodes| && s in nodes[i].succ
  }

  /** preds[s] lists every node with an edge to s. */
  method Predecessors(nodes: seq<Node>) returns (preds: seq<seq<nat>>)
    requires forall i, s: nat | 0 <= i < |nodes| && s in nodes[i].succ :: s < |nodes|
    ensures |preds| == |nodes|
    ensures forall i: nat, s: nat {:trigger i in preds[s]} | s < |nodes| && i in preds[s] :: HasEdge(nodes, i, s)
    ensures forall i: nat, s: nat | HasEdge(nodes, i, s) :: i in preds[s]
  {
    preds := seq(|nodes|, _ => []);
    for i := 0 to |nodes|
      invariant |preds| == |nodes|
      invariant forall j: nat, s: nat {:trigger j in preds[s]} | s < |nodes| && j in preds[s] :: HasEdge(nodes, j, s)
      invariant forall j: nat, s: nat | HasEdge(nodes, j, s) && j < i :: j in preds[s]
    {
      var succ := nodes[i].succ;
      for k := 0 to |succ|
        invariant |preds| == |nodes|
        invariant forall j: nat, s: nat {:trigger j in preds[s]} | s < |nodes| && j in preds[s] :: HasEdge(nodes, j, s)
        invariant forall j: nat, s: nat | HasEdge(nodes, j, s) && j < i :: j in preds[s]
        invariant forall m: nat | m < k :: succ[m] < |nodes| && i in preds[succ[m]]
      {
        assert HasEdge(nodes, i, succ[k]);
        preds := preds[succ[k] := preds[succ[k]] + [i]];
      }
      assert forall s: nat | HasEdge(nodes, i, s) :: exists m: nat | m < |succ| :: succ[m] == s;
    }
  }

  method OutOf(succ: seq<nat>, live: Masks) returns (out: set<Reg>)
    requires forall s | s in succ :: s < |live|
    ensures out == Out(succ, live)
  {
    out := {};
    for k := 0 to |succ|
      invariant out == Out(succ[..k], live)
    {
      assert succ[k] in succ;
      assert succ[..k + 1] == succ[..k] + [succ[k]];
      out := out + live[succ[k]];
    }
    assert succ[..|succ|] == succ;
  }

  ghost predicate Queued(work: seq<nat>, on: seq<bool>) {
    && (forall k: nat | k < |work| :: work[k] < |on|)
    && forall j: nat | j < |on| && on[j] :: j in work
  }

  /** Nodes that are off the worklist hold their equation; the others are below it. */
  ghost predicate Ascending(nodes: seq<Node>, gen: Masks, kill: Masks, live: Masks, on: seq<bool>)
    requires |gen| == |kill| == |nodes|
  {
    && |live| == |on| == |nodes|
    && forall i | 0 <= i < |nodes| ::
      && live[i] <= Equation(nodes, gen, kill, live, i)
      && (!on[i] ==> live[i] == Equation(nodes, gen, kill, live, i))
  }

  method Requeue(from: seq<nat>, on: seq<bool>, work: seq<nat>) returns (on': seq<bool>, work': seq<nat>)
    requires forall m: nat | m < |from| :: from[m] < |on|
    requires Queued(work, on)
    ensures |on'| == |on| && Queued(work', on')
    ensures forall j: nat | j < |on| :: on'[j] <==> on[j] || j in from
  {
    on', work' := on, work;
    for k := 0 to |from|
      invariant |on'| == |on| && Queued(work', on')
      invariant forall m: nat | m < k :: on'[from[m]]
      invariant forall j: nat | j < |on| && on'[j] :: on[j] || j in from
      invariant forall j: nat | j < |on| && on[j] :: on'[j]
    {
      var p := from[k];
      if !on'[p] {
        on' := on'[p := true];
        work' := work' + [p];
      }
    }
  }

  ghost predicate ArePredecessors(nodes: seq<Node>, preds: seq<seq<nat>>) {
    && |preds| == |nodes|
    && (forall i: nat, s: nat {:trigger i in preds[s]} | s < |nodes| && i in preds[s] :: HasEdge(nodes, i, s))
    && forall i: nat, s: nat | HasEdge(nodes, i, s) :: s < |preds| && i in preds[s]
  }

  /** Between two pops: below every solution, and every node that may not hold its equation is queued. */
  ghost predicate Flowing(nodes: seq<Node>, gen: Masks, kill: Masks, live: Masks, on: seq<bool>, work: seq<nat>)
    requires |gen| == |kill| == |nodes|
  {
    && Ascending(nodes, gen, kill, live, on)
    && Queued(work, on)
    && (forall i | 0 <= i < |live| :: live[i] <= UnionOf(gen))
    && forall other: Masks | IsSolution(nodes, gen, kill, other) :: Below(live, other)
  }

  /** Takes node i off the worklist and recomputes it; its predecessors are queued when it grew. */
  method Revisit(nodes: seq<Node>, gen: Masks, kill: Masks, preds: seq<seq<nat>>, was: Masks, on: seq<bool>,
      work: seq<nat>)
      returns (live: Masks, on': seq<bool>, work': seq<nat>)
    requires Graph(nodes, gen, kill) && ArePredecessors(nodes, preds)
    requires Flowing(nodes, gen, kill, was, on, work) && work != []
    ensures Flowing(nodes, gen, kill, live, on', work')
    ensures Missing(live, UnionOf(gen)) < Missing(was, UnionOf(gen)) || (live == was && |work'| < |work|)
  {
    hide UnionOf, Missing, IsSolution, Below;
    var i := work[|work| - 1];
    assert work == work[..|work| - 1] + [i];
    live, on', work' := was, on[i := false], work[..|work| - 1];
    var out := OutOf(nodes[i].succ, was);
    var value := gen[i] + (out - kill[i]);
    if value != was[i] {
      OutBelow(nodes[i].succ, was, UnionOf(gen));
      MissingShrinks(was, UnionOf(gen), i, value);
      Grown(nodes, gen, kill, was, i);
      live := was[i := value];
      forall m: nat | m < |preds[i]| ensures preds[i][m] < |nodes| {
        assert preds[i][m] in preds[i] && HasEdge(nodes, preds[i][m], i);
      }
      on', work' := Requeue(preds[i], on', work');
      assert forall j: nat | HasEdge(nodes, j, i) :: on'[j];
    }
  }

  /** Program.liveness once gen and kill are filled in: pops the last node of the
      worklist, recomputes it and queues its predecessors when it grew. */
  method SolveFlow(nodes: seq<Node>, gen: Masks, kill: Masks) returns (live: Masks)
    requires Graph(nodes, gen, kill)
    ensures IsLeastSolution(nodes, gen, kill, live)
  {
    live := seq(|nodes|, _ => {});
    var preds := Predecessors(nodes);
    var work: seq<nat>, on := seq(|nodes|, i => i), seq(|nodes|, _ => true);
    forall i: nat | i < |nodes| ensures i in work {
      assert work[i] == i;
    }
    while work != []
      invariant Flowing(nodes, gen, kill, live, on, work)
      decreases Missing(live, UnionOf(gen)), |work|
    {
      live, on, work := Revisit(nodes, gen, kill, preds, live, on, work);
    }
  }

  lemma OutBelow(succ: seq<nat>, live: Masks, bound: set<Reg>)
    requires forall i | 0 <= i < |live| :: live[i] <= bound
    ensures Out(succ, live) <= bound
  {
  }

  /** Raising one mask changes only the equations of its predecessors, and never
      passes a solution. */
  lemma Grown(nodes: seq<Node>, gen: Masks, kill: Masks, was: Masks, i: nat)
    requires Graph(nodes, gen, kill) && |was| == |nodes| && i < |nodes|
    requires was[i] <= Equation(nodes, gen, kill, was, i)
    ensures var live := was[i := Equation(nodes, gen, kill, was, i)];
      && (forall j | 0 <= j < |nodes| && !HasEdge(nodes, j, i) ::
          Equation(nodes, gen, kill, live, j) == Equation(nodes, gen, kill, was, j))
      && (forall j | 0 <= j < |nodes| ::
          Equation(nodes, gen, kill, was, j) <= Equation(nodes, gen, kill, live, j))
      && (forall other: Masks | IsSolution(nodes, gen, kill, other) && Below(was, other) :: Below(live, other))
  {
    var live := was[i := Equation(nodes, gen, kill, was, i)];
    forall j | 0 <= j < |nodes| && !HasEdge(nodes, j, i)
      ensures Out(nodes[j].succ, live) == Out(nodes[j].succ, was)
    {
      OutAgrees(nodes[j].succ, was, live);
      OutAgrees(nodes[j].succ, live, was);
    }
    forall j | 0 <= j < |nodes| ensures Out(nodes[j].succ, was) <= Out(nodes[j].succ, live) {
      OutAgrees(nodes[j].succ, was, live);
    }
    forall other: Masks | IsSolution(nodes, gen, kill, other) && Below(was, other) ensures Below(live, other) {
      OutAgrees(nodes[i].succ, was, other);
      assert other[i] == Equation(nodes, gen, kill, other, i);
    }
  }
}
