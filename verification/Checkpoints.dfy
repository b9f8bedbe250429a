/** Removing the checkpoints no path returns to (scripts/loop_head_checkpoints.py), on a
    generated file as its list of lines. */
module Checkpoints {

  /** A line as the script's patterns tell them apart; cr is a carriage return at its end. */
  datatype Line =
    | FuncStart(text: string)
    | Label(name: string, cr: bool)
    | Checkpoint(cr: bool)
    | Statement(text: string, gotos: seq<string>)

  function Gotos(line: Line): seq<string> {
    if line.Statement? then line.gotos else []
  }

  // ------------------------------------------------------------ what is dropped

  /** One function: from its first line to the next function's, or the end of the file. */
  ghost predicate Segment(lines: seq<Line>, begin: nat, end: nat) {
    && begin < end <= |lines|
    && lines[begin].FuncStart?
    && (end < |lines| ==> lines[end].FuncStart?)
    && forall k | begin < k < end :: !lines[k].FuncStart?
  }

  predicate IsLabel(line: Line, name: string) {
    line.Label? && line.name == name
  }

  /** A goto at or after a definition of the label: a path can come back to it. */
  ghost predicate Returns(lines: seq<Line>, begin: nat, end: nat, i: nat, j: nat, name: string) {
    begin <= i <= j < end <= |lines| && IsLabel(lines[i], name)
    && lines[j].Statement? && name in lines[j].gotos
  }

  ghost predicate LoopHead(lines: seq<Line>, begin: nat, end: nat, name: string) {
    exists i, j :: Returns(lines, begin, end, i, j, name)
  }

  ghost predicate LastLabel(lines: seq<Line>, begin: nat, end: nat, i: nat) {
    && begin <= i < end <= |lines| && lines[i].Label?
    && forall k | i < k < end :: !IsLabel(lines[k], lines[i].name)
  }

  ghost predicate DroppedIn(lines: seq<Line>, begin: nat, end: nat, d: nat) {
    && begin < d < end <= |lines|
    && lines[d].Checkpoint?
    && LastLabel(lines, begin, end, d - 1)
    && !LoopHead(lines, begin, end, lines[d - 1].name)
  }

  ghost predicate Dropped(lines: seq<Line>, d: nat) {
    exists begin, end :: Segment(lines, begin, end) && DroppedIn(lines, begin, end, d)
  }

  ghost predicate IsDropSet(lines: seq<Line>, drop: set<nat>) {
    forall d: nat :: d in drop <==> Dropped(lines, d)
  }

  // ------------------------------------------------------------ the scan

  /** The lines up to end, less those in drop. */
  function Kept(lines: seq<Line>, drop: set<nat>, end: nat): seq<Line>
    requires end <= |lines|
  {
    if end == 0 then []
    else Kept(lines, drop, end - 1) + if end - 1 in drop then [] else [lines[end - 1]]
  }

  function Erase(lines: seq<Line>, drop: set<nat>): seq<Line> {
    Kept(lines, drop, |lines|)
  }

  ghost predicate LabelsUpTo(lines: seq<Line>, begin: nat, end: nat, labels: map<string, nat>) {
    && begin <= end <= |lines|
    && (forall name | name in labels :: LastLabel(lines, begin, end, labels[name]) && lines[labels[name]].name == name)
    && forall i | begin <= i < end && lines[i].Label? :: lines[i].name in labels
  }

  ghost predicate LoopsUpTo(lines: seq<Line>, begin: nat, end: nat, loops: set<string>) {
    forall name :: name in loops <==> LoopHead(lines, begin, end, name)
  }

  lemma LoopHeadGrows(lines: seq<Line>, begin: nat, end: nat, name: string)
    requires begin <= end < |lines|
    ensures LoopHead(lines, begin, end + 1, name) <==>
      LoopHead(lines, begin, end, name) ||
      (lines[end].Statement? && name in lines[end].gotos && exists i :: begin <= i <= end && IsLabel(lines[i], name))
  {
    if LoopHead(lines, begin, end, name) {
      var i, j :| Returns(lines, begin, end, i, j, name);
      assert Returns(lines, begin, end + 1, i, j, name);
    }
    if i :| begin <= i <= end && IsLabel(lines[i], name) && lines[end].Statement? && name in lines[end].gotos {
      assert Returns(lines, begin, end + 1, i, end, name);
    }
    if LoopHead(lines, begin, end + 1, name) {
      var i: nat, j: nat :| Returns(lines, begin, end + 1, i, j, name);
      if j < end {
        assert Returns(lines, begin, end, i, j, name);
      }
    }
  }

  /** The names of one line's gotos that are already labels. */
  method SeenTargets(gotos: seq<string>, labels: map<string, nat>, loops: set<string>) returns (loops': set<string>)
    ensures forall name :: name in loops' <==> name in loops || (name in gotos && name in labels)
  {
    loops' := loops;
    for k := 0 to |gotos|
      invariant forall name :: name in loops' <==> name in loops || (name in gotos[..k] && name in labels)
    {
      assert gotos[..k + 1] == gotos[..k] + [gotos[k]];
      if gotos[k] in labels {
        loops' := loops' + {gotos[k]};
      }
    }
    assert gotos[..|gotos|] == gotos;
  }

  /** The labels of one function and those a goto returns to. */
  method ScanFunction(lines: seq<Line>, begin: nat, end: nat) returns (labels: map<string, nat>, loops: set<string>)
    requires begin < end <= |lines|
    ensures LabelsUpTo(lines, begin, end, labels) && LoopsUpTo(lines, begin, end, loops)
  {
    hide LoopHead;
    labels, loops := map[], {};
    NoLoopsYet(lines, begin);
    for i := begin to end
      invariant LabelsUpTo(lines, begin, i, labels) && LoopsUpTo(lines, begin, i, loops)
    {
      var line := lines[i];
      LabelsGrow(lines, begin, i, labels);
      if line.Label? {
        labels := labels[line.name := i];
      }
      LabelsNow(lines, begin, i, labels);
      loops := SeenTargets(Gotos(line), labels, loops);
      forall name ensures name in loops <==> LoopHead(lines, begin, i + 1, name) {
        LoopHeadGrows(lines, begin, i, name);
      }
    }
  }

  lemma NoLoopsYet(lines: seq<Line>, begin: nat)
    ensures begin <= |lines| ==> LoopsUpTo(lines, begin, begin, {})
  {
  }

  lemma LabelsGrow(lines: seq<Line>, begin: nat, i: nat, labels: map<string, nat>)
    requires i < |lines| && LabelsUpTo(lines, begin, i, labels)
    ensures LabelsUpTo(lines, begin, i + 1, if lines[i].Label? then labels[lines[i].name := i] else labels)
  {
  }

  lemma LabelsNow(lines: seq<Line>, begin: nat, i: nat, labels: map<string, nat>)
    requires LabelsUpTo(lines, begin, i + 1, labels)
    ensures forall name :: name in labels <==> exists k :: begin <= k <= i && IsLabel(lines[k], name)
  {
  }

  /** The m-th function, of consecutive entries of the list of starts. */
  ghost predicate Nth(starts: seq<nat>, m: nat, begin: nat, end: nat) {
    m + 1 < |starts| && begin == starts[m] && end == starts[m + 1]
  }

  ghost predicate DroppedUpTo(lines: seq<Line>, starts: seq<nat>, k: nat, drop: set<nat>) {
    && (forall d: nat | d in drop :: exists m: nat, begin, end ::
      m < k && Nth(starts, m, begin, end) && DroppedIn(lines, begin, end, d))
    && forall d: nat, m: nat, begin, end | m < k && Nth(starts, m, begin, end) && DroppedIn(lines, begin, end, d) ::
      d in drop
  }

  /** forward_checkpoints: the checkpoint lines that follow a label no goto returns to. */
  method ForwardCheckpoints(lines: seq<Line>) returns (drop: set<nat>)
    ensures IsDropSet(lines, drop)
  {
    drop := {};
    var starts := StartsOf(lines);
    for k := 0 to |starts| - 1
      invariant DroppedUpTo(lines, starts, k, drop)
    {
      var begin, end := starts[k], starts[k + 1];
      SegmentAt(lines, starts, k);
      var labels, loops := ScanFunction(lines, begin, end);
      var more := set name | name in labels && name !in loops && labels[name] + 1 < end
        && lines[labels[name] + 1].Checkpoint?
        :: labels[name] + 1;
      MoreIsDropped(lines, begin, end, labels, loops, more);
      DroppedNow(lines, starts, k, drop, more);
      drop := drop + more;
    }
    EverySegment(lines, starts, drop);
  }

  lemma DroppedNow(lines: seq<Line>, starts: seq<nat>, k: nat, drop: set<nat>, more: set<nat>)
    requires k + 1 < |starts| && DroppedUpTo(lines, starts, k, drop)
    requires forall d: nat :: d in more <==> DroppedIn(lines, starts[k], starts[k + 1], d)
    ensures DroppedUpTo(lines, starts, k + 1, drop + more)
  {
    hide DroppedIn;
    assert Nth(starts, k, starts[k], starts[k + 1]);
  }

  lemma LastLabelIs(lines: seq<Line>, begin: nat, end: nat, labels: map<string, nat>, i: nat)
    requires LabelsUpTo(lines, begin, end, labels) && LastLabel(lines, begin, end, i)
    ensures lines[i].name in labels && labels[lines[i].name] == i
  {
    assert LastLabel(lines, begin, end, labels[lines[i].name]);
  }

  lemma MoreIsDropped(lines: seq<Line>, begin: nat, end: nat, labels: map<string, nat>, loops: set<string>,
      more: set<nat>)
    requires begin < end <= |lines|
    requires LabelsUpTo(lines, begin, end, labels) && LoopsUpTo(lines, begin, end, loops)
    requires more == set name | name in labels && name !in loops && labels[name] + 1 < end
      && lines[labels[name] + 1].Checkpoint?
      :: labels[name] + 1
    ensures forall d: nat :: d in more <==> DroppedIn(lines, begin, end, d)
  {
    hide LoopHead, LastLabel, DroppedIn;
    forall d: nat | DroppedIn(lines, begin, end, d) ensures d in more {
      DroppedIsMore(lines, begin, end, labels, loops, d);
    }
    forall d: nat | d in more ensures DroppedIn(lines, begin, end, d) {
      var name :| name in labels && name !in loops && labels[name] + 1 == d && d < end && lines[d].Checkpoint?;
      MoreIsDroppedAt(lines, begin, end, labels, loops, name);
    }
  }

  lemma DroppedIsMore(lines: seq<Line>, begin: nat, end: nat, labels: map<string, nat>, loops: set<string>, d: nat)
    requires begin < end <= |lines| && DroppedIn(lines, begin, end, d)
    requires LabelsUpTo(lines, begin, end, labels) && LoopsUpTo(lines, begin, end, loops)
    ensures exists name :: name in labels && name !in loops && labels[name] + 1 == d < end && lines[d].Checkpoint?
  {
    hide LoopHead;
    LastLabelIs(lines, begin, end, labels, d - 1);
    var name := lines[d - 1].name;
    assert name !in loops;
  }

  lemma MoreIsDroppedAt(lines: seq<Line>, begin: nat, end: nat, labels: map<string, nat>, loops: set<string>,
      name: string)
    requires begin < end <= |lines| && name in labels && name !in loops
    requires LabelsUpTo(lines, begin, end, labels) && LoopsUpTo(lines, begin, end, loops)
    requires labels[name] + 1 < end && lines[labels[name] + 1].Checkpoint?
    ensures DroppedIn(lines, begin, end, labels[name] + 1)
  {
    hide LoopHead;
    assert LastLabel(lines, begin, end, labels[name]);
  }

  ghost predicate StartsUpTo(lines: seq<Line>, end: nat, starts: seq<nat>) {
    && end <= |lines|
    && (forall k | 0 <= k < |starts| :: starts[k] < end && lines[starts[k]].FuncStart?)
    && (forall k, m | 0 <= k < m < |starts| :: starts[k] < starts[m])
    && forall i | 0 <= i < end && lines[i].FuncStart? :: i in starts
  }

  ghost predicate AreStarts(lines: seq<Line>, starts: seq<nat>) {
    && |starts| > 0 && starts[|starts| - 1] == |lines|
    && StartsUpTo(lines, |lines|, starts[..|starts| - 1])
  }

  /** The first line of every function, and the end of the file. */
  method StartsOf(lines: seq<Line>) returns (starts: seq<nat>)
    ensures AreStarts(lines, starts)
  {
    starts := [];
    for i := 0 to |lines|
      invariant StartsUpTo(lines, i, starts)
    {
      if lines[i].FuncStart? {
        starts := starts + [i];
      }
    }
    assert (starts + [|lines|])[..|starts|] == starts;
    starts := starts + [|lines|];
  }

  lemma SegmentAt(lines: seq<Line>, starts: seq<nat>, m: nat)
    requires AreStarts(lines, starts) && m + 1 < |starts|
    ensures Segment(lines, starts[m], starts[m + 1])
  {
    var found := starts[..|starts| - 1];
    assert found[m] == starts[m];
    if m + 1 < |found| {
      assert found[m + 1] == starts[m + 1];
    }
    forall k | starts[m] < k < starts[m + 1] ensures !lines[k].FuncStart? {
      forall n | 0 <= n < |found| ensures found[n] != k {
        assert n < m ==> found[n] < found[m];
        assert m + 1 < n ==> found[m + 1] < found[n];
      }
      assert k !in found;
    }
  }

  lemma EverySegment(lines: seq<Line>, starts: seq<nat>, drop: set<nat>)
    requires AreStarts(lines, starts) && DroppedUpTo(lines, starts, |starts| - 1, drop)
    ensures IsDropSet(lines, drop)
  {
    hide DroppedIn, StartsUpTo;
    forall d: nat | d in drop ensures Dropped(lines, d) {
      var m: nat, begin: nat, end: nat :| m < |starts| - 1 && Nth(starts, m, begin, end)
        && DroppedIn(lines, begin, end, d);
      SegmentAt(lines, starts, m);
    }
    forall d: nat | Dropped(lines, d) ensures d in drop {
      var begin: nat, end: nat :| Segment(lines, begin, end) && DroppedIn(lines, begin, end, d);
      var m := NthOf(lines, starts, begin, end);
    }
  }

  lemma NthOf(lines: seq<Line>, starts: seq<nat>, begin: nat, end: nat) returns (m: nat)
    requires AreStarts(lines, starts) && Segment(lines, begin, end)
    ensures Nth(starts, m, begin, end) && m < |starts| - 1
  {
    var found := starts[..|starts| - 1];
    m :| m < |found| && found[m] == begin;
    SegmentAt(lines, starts, m);
    SegmentEnds(lines, begin, end, starts[m + 1]);
  }

  lemma SegmentEnds(lines: seq<Line>, begin: nat, end: nat, other: nat)
    requires Segment(lines, begin, end) && Segment(lines, begin, other)
    ensures end == other
  {
  }

  function CheckpointCount(lines: seq<Line>): nat {
    if lines == [] then 0
    else CheckpointCount(lines[..|lines| - 1]) + if lines[|lines| - 1].Checkpoint? then 1 else 0
  }

  /** transform: the text without those lines, and how many checkpoints went and stayed. */
  method Transform(lines: seq<Line>) returns (output: seq<Line>, dropped: nat, kept: int, ghost drop: set<nat>)
    ensures IsDropSet(lines, drop) && output == Erase(lines, drop)
    ensures dropped == |drop| && kept == CheckpointCount(output)
  {
    var forward := ForwardCheckpoints(lines);
    DropsOnlyCheckpoints(lines, forward);
    hide *;
    output := [];
    var checkpoints := 0;
    KeptNone(lines, forward);
    for i := 0 to |lines|
      invariant output == Kept(lines, forward, i)
      invariant checkpoints == CheckpointCount(output) + DroppedBefore(forward, i)
    {
      KeptOne(lines, forward, i, output);
      if i !in forward {
        output := output + [lines[i]];
      }
      if lines[i].Checkpoint? {
        checkpoints := checkpoints + 1;
      }
    }
    AllBefore(forward, |lines|);
    WholeText(lines, forward);
    drop := forward;
    dropped, kept := |forward|, checkpoints - |forward|;
  }

  lemma DropsOnlyCheckpoints(lines: seq<Line>, drop: set<nat>)
    requires IsDropSet(lines, drop)
    ensures forall d | d in drop :: d < |lines| && lines[d].Checkpoint?
  {
    assert forall d | d in drop :: Dropped(lines, d);
  }

  lemma KeptNone(lines: seq<Line>, drop: set<nat>)
    ensures Kept(lines, drop, 0) == [] && CheckpointCount([]) == 0 && DroppedBefore(drop, 0) == 0
  {
  }

  function DroppedBefore(drop: set<nat>, i: nat): nat {
    if i == 0 then 0 else DroppedBefore(drop, i - 1) + if i - 1 in drop then 1 else 0
  }

  lemma {:induction false} AllBefore(drop: set<nat>, end: nat)
    requires forall d | d in drop :: d < end
    ensures DroppedBefore(drop, end) == |drop|
  {
    if end == 0 {
      assert drop == {};
    } else {
      AllBefore(drop - {end - 1}, end - 1);
      SameBefore(drop, drop - {end - 1}, end - 1);
    }
  }

  lemma SameBefore(a: set<nat>, b: set<nat>, end: nat)
    requires forall d | d < end :: d in a <==> d in b
    ensures DroppedBefore(a, end) == DroppedBefore(b, end)
  {
  }

  lemma KeptOne(lines: seq<Line>, drop: set<nat>, i: nat, output: seq<Line>)
    requires i < |lines|
    ensures Kept(lines, drop, i + 1) == Kept(lines, drop, i) + if i in drop then [] else [lines[i]]
    ensures DroppedBefore(drop, i + 1) == DroppedBefore(drop, i) + if i in drop then 1 else 0
    ensures CheckpointCount(output + [lines[i]]) == CheckpointCount(output) + if lines[i].Checkpoint? then 1 else 0
  {
    assert (output + [lines[i]])[..|output|] == output;
  }

  lemma WholeText(lines: seq<Line>, drop: set<nat>)
    ensures Kept(lines, drop, |lines|) == Erase(lines, drop)
  {
  }

  /** What transform writes always passes check. */
  lemma TransformPassesCheck(lines: seq<Line>, drop: set<nat>)
    requires IsDropSet(lines, drop)
    ensures OnlyCheckpointsGone(lines, Erase(lines, drop))
  {
    assert forall d: nat | d in drop :: Dropped(lines, d);
  }

  // ------------------------------------------------------------ check

  /** The output is the source with some checkpoint lines deleted. */
  ghost predicate OnlyCheckpointsGone(source: seq<Line>, output: seq<Line>) {
    exists drop: set<nat> :: (forall d: nat | d in drop && d < |source| :: source[d].Checkpoint?)
      && output == Erase(source, drop)
  }

  /** check: one greedy pass over both texts. */
  method Check(source: seq<Line>, output: seq<Line>) returns (same: bool)
    ensures same <==> OnlyCheckpointsGone(source, output)
  {
    var j := 0;
    ghost var all := Deletes(source, output);
    DeletesIs(source, output);
    for i := 0 to |source|
      invariant j <= |output|
      invariant all <==> Deletes(source[i..], output[j..])
    {
      var line := source[i];
      assert source[i..][0] == line && source[i..][1..] == source[i + 1..];
      if j < |output| && output[j] == line {
        assert output[j..][0] == line && output[j..][1..] == output[j + 1..];
        if line.Checkpoint? {
          Exchange(source[i + 1..], output[j..]);
        }
        j := j + 1;
      } else if !line.Checkpoint? {
        return false;
      }
    }
    same := j == |output|;
  }

  /** Deletion line by line: every way of skipping checkpoint lines is allowed. */
  ghost predicate Deletes(source: seq<Line>, output: seq<Line>) {
    if source == [] then output == []
    else
      || (output != [] && source[0] == output[0] && Deletes(source[1..], output[1..]))
      || (source[0].Checkpoint? && Deletes(source[1..], output))
  }

  /** Taking a match at once loses nothing: a checkpoint line that could be deleted and
      matched later can as well be matched now and the later one deleted. */
  lemma {:induction false} Exchange(source: seq<Line>, output: seq<Line>)
    requires output != [] && output[0].Checkpoint?
    ensures Deletes(source, output) ==> Deletes(source, output[1..])
  {
    if source != [] && Deletes(source, output) {
      if source[0] == output[0] && Deletes(source[1..], output[1..]) {
      } else {
        Exchange(source[1..], output);
      }
    }
  }

  /** drop as seen from the second line on. */
  function Tail(drop: set<nat>): set<nat> {
    set d: nat | d in drop && d > 0 :: (d - 1) as nat
  }

  lemma {:induction false} KeptFromHead(lines: seq<Line>, drop: set<nat>, end: nat)
    requires 0 < end <= |lines|
    ensures Kept(lines, drop, end) == (if 0 in drop then [] else [lines[0]]) + Kept(lines[1..], Tail(drop), end - 1)
  {
    if end > 1 {
      KeptFromHead(lines, drop, end - 1);
      assert end - 1 in drop <==> end - 2 in Tail(drop);
    } else {
      assert Kept(lines, drop, 0) == [];
    }
  }

  lemma {:induction false} DeletesIs(source: seq<Line>, output: seq<Line>)
    ensures Deletes(source, output) <==> OnlyCheckpointsGone(source, output)
  {
    if Deletes(source, output) {
      var drop := DropFor(source, output);
    }
    if drop: set<nat> :|
      && (forall d: nat | d in drop && d < |source| :: source[d].Checkpoint?)
      && output == Erase(source, drop) {
      EraseDeletes(source, drop);
    }
  }

  lemma {:induction false} DropFor(source: seq<Line>, output: seq<Line>) returns (drop: set<nat>)
    requires Deletes(source, output)
    ensures forall d: nat | d in drop :: d < |source| && source[d].Checkpoint?
    ensures output == Erase(source, drop)
  {
    if source == [] {
      drop := {};
    } else {
      var match_ := output != [] && source[0] == output[0] && Deletes(source[1..], output[1..]);
      var rest := DropFor(source[1..], if match_ then output[1..] else output);
      drop := (set d: nat | d in rest :: d + 1) + if match_ then {} else {0};
      assert Tail(drop) == rest by {
        assert forall d: nat :: d in rest <==> d + 1 in drop;
      }
      KeptFromHead(source, drop, |source|);
    }
  }

  lemma {:induction false} EraseDeletes(source: seq<Line>, drop: set<nat>)
    requires forall d: nat | d in drop && d < |source| :: source[d].Checkpoint?
    ensures Deletes(source, Erase(source, drop))
  {
    if source != [] {
      KeptFromHead(source, drop, |source|);
      assert forall d: nat | d in Tail(drop) && d < |source[1..]| :: source[1..][d] == source[d + 1] && d + 1 in drop;
      EraseDeletes(source[1..], Tail(drop));
      var output := Erase(source, drop);
      if 0 !in drop {
        assert output == [source[0]] + Erase(source[1..], Tail(drop));
        assert output[1..] == Erase(source[1..], Tail(drop));
      } else {
        assert output == Erase(source[1..], Tail(drop));
      }
    }
  }
}
