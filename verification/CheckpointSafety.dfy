/** What the removal keeps: every path that repeats still passes a checkpoint, and but
    for checkpoints the runs of the function are the same. */
module CheckpointSafety {
  import opened Checkpoints

  // ------------------------------------------------------------ where kept lines go

  /** The place of line i in the output: how many lines before it are kept. */
  function Rank(lines: seq<Line>, drop: set<nat>, i: nat): nat
    requires i <= |lines|
  {
    |Kept(lines, drop, i)|
  }

  lemma {:induction false} RankGrows(lines: seq<Line>, drop: set<nat>, i: nat, j: nat)
    requires i <= j <= |lines|
    ensures Rank(lines, drop, i) <= Rank(lines, drop, j) <= Rank(lines, drop, i) + (j - i)
    ensures Kept(lines, drop, j)[..Rank(lines, drop, i)] == Kept(lines, drop, i)
    ensures i < j && i !in drop ==> Rank(lines, drop, i) < Rank(lines, drop, j)
  {
    if i < j {
      RankGrows(lines, drop, i, j - 1);
      if i == j - 1 {
      }
    }
  }

  lemma KeptAtRank(lines: seq<Line>, drop: set<nat>, i: nat)
    requires i < |lines| && i !in drop
    ensures Rank(lines, drop, i) < |Erase(lines, drop)|
    ensures Erase(lines, drop)[Rank(lines, drop, i)] == lines[i]
    ensures Rank(lines, drop, i + 1) == Rank(lines, drop, i) + 1
  {
    RankGrows(lines, drop, i + 1, |lines|);
    assert Kept(lines, drop, i + 1) == Kept(lines, drop, i) + [lines[i]];
    assert Erase(lines, drop)[..Rank(lines, drop, i + 1)][Rank(lines, drop, i)] == lines[i];
  }

  /** The line an output line comes from. */
  lemma {:induction false} OriginOf(lines: seq<Line>, drop: set<nat>, end: nat, k: nat) returns (i: nat)
    requires end <= |lines| && k < Rank(lines, drop, end)
    ensures i < end && i !in drop && Rank(lines, drop, i) == k
  {
    if end - 1 !in drop && Rank(lines, drop, end - 1) == k {
      i := end - 1;
    } else {
      i := OriginOf(lines, drop, end - 1, k);
    }
  }

  lemma RankInjective(lines: seq<Line>, drop: set<nat>, i: nat, j: nat)
    requires i <= |lines| && j <= |lines| && i !in drop && Rank(lines, drop, i) < Rank(lines, drop, j)
    ensures i < j
  {
    if j <= i {
      RankGrows(lines, drop, j, i);
    }
  }

  // ------------------------------------------------------------ loop heads stay checked

  /** Every label of a function is followed by a checkpoint. */
  ghost predicate AllChecked(lines: seq<Line>) {
    forall begin: nat, end: nat, i: nat | Segment(lines, begin, end) && begin <= i < end && lines[i].Label? ::
      i + 1 < end && lines[i + 1].Checkpoint?
  }

  /** Every label a goto returns to is. */
  ghost predicate HeadsChecked(lines: seq<Line>) {
    forall begin, end, i, j, name | Segment(lines, begin, end) && Returns(lines, begin, end, i, j, name) ::
      i + 1 < end && lines[i + 1].Checkpoint?
  }

  lemma SegmentOf(lines: seq<Line>, begin: nat, i: nat) returns (end: nat)
    requires begin <= i < |lines| && lines[begin].FuncStart?
    requires forall k | begin < k <= i :: !lines[k].FuncStart?
    ensures i < end && Segment(lines, begin, end)
  {
    end := i + 1;
    while end < |lines| && !lines[end].FuncStart?
      invariant i < end <= |lines|
      invariant forall k | begin < k < end :: !lines[k].FuncStart?
    {
      end := end + 1;
    }
  }

  lemma DropIs(lines: seq<Line>, drop: set<nat>, d: nat)
    requires IsDropSet(lines, drop)
    ensures d in drop ==> 0 < d < |lines| && lines[d].Checkpoint? && lines[d - 1].Label?
  {
    assert d in drop ==> Dropped(lines, d);
  }

  lemma DropsCheckpoints(lines: seq<Line>, drop: set<nat>, d: nat)
    requires IsDropSet(lines, drop) && d in drop
    ensures 0 < d < |lines| && lines[d].Checkpoint? && lines[d - 1].Label? && d - 1 !in drop && d + 1 !in drop
  {
    DropIs(lines, drop, d);
    DropIs(lines, drop, d + 1);
    DropIs(lines, drop, d - 1);
  }

  /** The function of an output line is the one its origin lies in. */
  lemma SegmentOrigin(lines: seq<Line>, drop: set<nat>, begin': nat, end': nat, j': nat)
      returns (begin: nat, end: nat, j: nat)
    requires IsDropSet(lines, drop)
    requires Segment(Erase(lines, drop), begin', end') && begin' <= j' < end'
    ensures Segment(lines, begin, end) && begin <= j < end
    ensures begin !in drop && Rank(lines, drop, begin) == begin' && j !in drop && Rank(lines, drop, j) == j'
    ensures Rank(lines, drop, end) == end'
  {
    var output := Erase(lines, drop);
    begin := OriginOf(lines, drop, |lines|, begin');
    j := OriginOf(lines, drop, |lines|, j');
    KeptAtRank(lines, drop, begin);
    if j < begin {
      RankGrows(lines, drop, j, begin);
    }
    forall k | begin < k <= j ensures !lines[k].FuncStart? {
      if lines[k].FuncStart? {
        StartKept(lines, drop, k);
        RankGrows(lines, drop, begin, k);
        RankGrows(lines, drop, k, j);
      }
    }
    end := SegmentOf(lines, begin, j);
    EndOrigin(lines, drop, begin', end', begin, j, end);
  }

  lemma StartKept(lines: seq<Line>, drop: set<nat>, k: nat)
    requires IsDropSet(lines, drop) && k < |lines| && lines[k].FuncStart?
    ensures k !in drop && Rank(lines, drop, k) < |Erase(lines, drop)|
      && Erase(lines, drop)[Rank(lines, drop, k)].FuncStart?
  {
    DropIs(lines, drop, k);
    KeptAtRank(lines, drop, k);
  }

  lemma EndOrigin(lines: seq<Line>, drop: set<nat>, begin': nat, end': nat, begin: nat, j: nat, end: nat)
    requires IsDropSet(lines, drop) && Segment(lines, begin, end) && begin <= j < end
    requires Segment(Erase(lines, drop), begin', end') && begin !in drop && j !in drop
    requires Rank(lines, drop, begin) == begin' <= Rank(lines, drop, j) < end'
    ensures Rank(lines, drop, end) == end'
  {
    var output := Erase(lines, drop);
    RankGrows(lines, drop, end, |lines|);
    RankGrows(lines, drop, begin, end);
    if end < |lines| {
      StartKept(lines, drop, end);
    }
    if end' < Rank(lines, drop, end) {
      var k := OriginOf(lines, drop, end, end');
      KeptAtRank(lines, drop, k);
      RankInjective(lines, drop, begin, k);
    }
  }

  lemma HeadChecked(lines: seq<Line>, drop: set<nat>, begin': nat, end': nat, i': nat, j': nat, name: string)
    requires IsDropSet(lines, drop) && AllChecked(lines)
    requires Segment(Erase(lines, drop), begin', end') && Returns(Erase(lines, drop), begin', end', i', j', name)
    ensures i' + 1 < end' <= |Erase(lines, drop)| && Erase(lines, drop)[i' + 1].Checkpoint?
  {
    hide Kept, Erase, Rank, Dropped, IsDropSet, LoopHead, AllChecked;
    var begin, end, j := SegmentOrigin(lines, drop, begin', end', j');
    var begin2, end2, i := SegmentOrigin(lines, drop, begin', end', i');
    SameBegin(lines, drop, begin, begin2);
    SegmentEnds(lines, begin, end, end2);
    KeptAtRank(lines, drop, i);
    KeptAtRank(lines, drop, j);
    if j < i {
      RankGrows(lines, drop, j, i);
    }
    HeadStays(lines, drop, begin, end, i, j, name);
    RankGrows(lines, drop, i + 2, end);
  }

  /** The heart of the pass: no label a path can come back to loses its checkpoint. */
  lemma TransformSafe(lines: seq<Line>, drop: set<nat>)
    requires IsDropSet(lines, drop) && AllChecked(lines)
    ensures HeadsChecked(Erase(lines, drop))
  {
    hide Segment, Returns, IsDropSet, AllChecked, Erase;
    var output := Erase(lines, drop);
    forall begin: nat, end: nat, i: nat, j: nat, name | Segment(output, begin, end)
      && Returns(output, begin, end, i, j, name)
      ensures i + 1 < end && i + 1 < |output| && output[i + 1].Checkpoint?
    {
      HeadChecked(lines, drop, begin, end, i, j, name);
    }
  }

  lemma SameBegin(lines: seq<Line>, drop: set<nat>, a: nat, b: nat)
    requires a <= |lines| && b <= |lines| && a !in drop && b !in drop && Rank(lines, drop, a) == Rank(lines, drop, b)
    ensures a == b
  {
    if a < b {
      RankGrows(lines, drop, a, b);
    } else {
      RankGrows(lines, drop, b, a);
    }
  }

  lemma HeadStays(lines: seq<Line>, drop: set<nat>, begin: nat, end: nat, i: nat, j: nat, name: string)
    requires IsDropSet(lines, drop) && AllChecked(lines) && Segment(lines, begin, end)
    requires Returns(lines, begin, end, i, j, name) && i !in drop
    ensures i + 1 < end && i + 1 !in drop
    ensures Rank(lines, drop, i + 1) == Rank(lines, drop, i) + 1 && Rank(lines, drop, i + 2) == Rank(lines, drop, i) + 2
    ensures Rank(lines, drop, i) + 1 < |Erase(lines, drop)| && Erase(lines, drop)[Rank(lines, drop, i) + 1].Checkpoint?
  {
    assert LoopHead(lines, begin, end, name);
    if i + 1 in drop {
      assert Dropped(lines, i + 1);
      var b: nat, e: nat :| Segment(lines, b, e) && DroppedIn(lines, b, e, i + 1);
      SegmentsMeet(lines, begin, end, b, e, i + 1);
    }
    KeptAtRank(lines, drop, i);
    KeptAtRank(lines, drop, i + 1);
  }

  lemma SegmentsMeet(lines: seq<Line>, begin: nat, end: nat, begin2: nat, end2: nat, k: nat)
    requires Segment(lines, begin, end) && Segment(lines, begin2, end2)
    requires begin < k < end && begin2 < k < end2
    ensures begin == begin2 && end == end2
  {
    assert begin == begin2;
    SegmentEnds(lines, begin, end, end2);
  }

  // ------------------------------------------------------------ paths

  /** Control moves to the next line, or to a label of the function a goto names. */
  ghost predicate Next(lines: seq<Line>, begin: nat, end: nat, i: nat, j: nat) {
    && begin <= i < end <= |lines| && begin <= j < end
    && (j == i + 1 || (lines[j].Label? && lines[i].Statement? && lines[j].name in lines[i].gotos))
  }

  ghost predicate IsPath(lines: seq<Line>, begin: nat, end: nat, path: seq<nat>) {
    && (forall k | 0 <= k < |path| :: begin <= path[k] < end <= |lines|)
    && forall k: nat | k + 1 < |path| :: Next(lines, begin, end, path[k], path[k + 1])
  }

  ghost predicate Unchecked(lines: seq<Line>, path: seq<nat>) {
    forall k | 0 <= k < |path| :: path[k] < |lines| && !lines[path[k]].Checkpoint?
  }

  /** A step that does not go down the file lands on a checked label, so the next step
      is that label's checkpoint. */
  lemma BackStepChecked(lines: seq<Line>, begin: nat, end: nat, i: nat, j: nat, k: nat)
    requires HeadsChecked(lines) && Segment(lines, begin, end)
    requires Next(lines, begin, end, i, j) && j <= i && Next(lines, begin, end, j, k)
    ensures lines[k].Checkpoint?
  {
    assert Returns(lines, begin, end, j, i, lines[j].name);
  }

  /** Without a checkpoint a path only goes down the file, but for its last step; so it
      is no longer than the function. */
  lemma {:induction false} StretchDescends(lines: seq<Line>, begin: nat, end: nat, path: seq<nat>)
    requires HeadsChecked(lines) && Segment(lines, begin, end)
    requires IsPath(lines, begin, end, path) && Unchecked(lines, path)
    ensures forall k: nat | k + 2 < |path| :: path[k] < path[k + 1]
    ensures |path| <= end - begin + 1
  {
    forall k: nat | k + 2 < |path| ensures path[k] < path[k + 1] {
      assert Next(lines, begin, end, path[k], path[k + 1]) && Next(lines, begin, end, path[k + 1], path[k + 1 + 1]);
      if path[k + 1] <= path[k] {
        BackStepChecked(lines, begin, end, path[k], path[k + 1], path[k + 2]);
      }
    }
    if |path| > 1 {
      Descent(path, |path| - 2);
    }
  }

  lemma {:induction false} Descent(path: seq<nat>, last: nat)
    requires last < |path| && forall k: nat | k < last :: path[k] < path[k + 1]
    ensures path[0] + last <= path[last]
  {
    if last > 0 {
      Descent(path, last - 1);
      assert path[last - 1] < path[last - 1 + 1];
    }
  }

  /** Every cycle passes a checkpoint. */
  lemma CyclePassesCheckpoint(lines: seq<Line>, begin: nat, end: nat, path: seq<nat>)
    requires HeadsChecked(lines) && Segment(lines, begin, end)
    requires IsPath(lines, begin, end, path) && |path| > 1 && path[0] == path[|path| - 1]
    ensures !Unchecked(lines, path)
  {
    if Unchecked(lines, path) {
      var twice := path + path[1..];
      forall k: nat | k + 1 < |twice| ensures Next(lines, begin, end, twice[k], twice[k + 1]) {
        if k + 1 < |path| {
          assert twice[k] == path[k] && twice[k + 1] == path[k + 1];
        } else {
          var m := k + 1 - |path|;
          assert twice[k] == path[m] && twice[k + 1] == path[m + 1];
        }
      }
      StretchDescends(lines, begin, end, twice);
      Descent(twice, |path| - 1);
    }
  }

  // ------------------------------------------------------------ the same runs

  /** What a path runs, checkpoints aside. */
  function Trace(lines: seq<Line>, path: seq<nat>): seq<Line> {
    if path == [] then []
    else
      var i := path[|path| - 1];
      Trace(lines, path[..|path| - 1]) + if i < |lines| && !lines[i].Checkpoint? then [lines[i]] else []
  }

  lemma TraceAppend(lines: seq<Line>, path: seq<nat>, i: nat)
    ensures Trace(lines, path + [i]) == Trace(lines, path) + if i < |lines| && !lines[i].Checkpoint?
      then [lines[i]] else []
  {
    assert (path + [i])[..|path|] == path;
  }

  lemma PathAppend(lines: seq<Line>, begin: nat, end: nat, path: seq<nat>, i: nat)
    requires IsPath(lines, begin, end, path) && begin <= i < end <= |lines|
    requires path != [] ==> Next(lines, begin, end, path[|path| - 1], i)
    ensures IsPath(lines, begin, end, path + [i])
  {
    var longer := path + [i];
    forall k: nat | k + 1 < |longer| ensures Next(lines, begin, end, longer[k], longer[k + 1]) {
      if k + 1 < |path| {
        assert longer[k] == path[k] && longer[k + 1] == path[k + 1];
      }
    }
  }

  lemma PathPrefix(lines: seq<Line>, begin: nat, end: nat, path: seq<nat>)
    requires IsPath(lines, begin, end, path) && path != []
    ensures IsPath(lines, begin, end, path[..|path| - 1])
    ensures |path| > 1 ==> Next(lines, begin, end, path[|path| - 2], path[|path| - 1])
  {
    var shorter := path[..|path| - 1];
    forall k: nat | k + 1 < |shorter| ensures Next(lines, begin, end, shorter[k], shorter[k + 1]) {
      assert shorter[k] == path[k] && shorter[k + 1] == path[k + 1];
    }
    if |path| > 1 {
      assert Next(lines, begin, end, path[|path| - 2], path[|path| - 2 + 1]);
    }
  }

  lemma SegmentImage(lines: seq<Line>, drop: set<nat>, begin: nat, end: nat)
    requires IsDropSet(lines, drop) && Segment(lines, begin, end)
    ensures Segment(Erase(lines, drop), Rank(lines, drop, begin), Rank(lines, drop, end))
  {
    StartKept(lines, drop, begin);
    RankGrows(lines, drop, begin, end);
    RankGrows(lines, drop, end, |lines|);
    if end < |lines| {
      StartKept(lines, drop, end);
    }
    forall k | Rank(lines, drop, begin) < k < Rank(lines, drop, end) ensures !Erase(lines, drop)[k].FuncStart? {
      var i := OriginOf(lines, drop, end, k);
      KeptAtRank(lines, drop, i);
      RankInjective(lines, drop, begin, i);
    }
  }

  lemma RankOver(lines: seq<Line>, drop: set<nat>, i: nat)
    requires i <= |lines|
    ensures i < |lines| && i in drop ==> Rank(lines, drop, i + 1) == Rank(lines, drop, i)
  {
  }

  /** One step between kept lines, over at most one dropped checkpoint, is one step of the output. */
  lemma StepImage(lines: seq<Line>, drop: set<nat>, begin: nat, end: nat, i: nat, j: nat)
    requires IsDropSet(lines, drop) && Segment(lines, begin, end) && i !in drop && j !in drop
    requires Next(lines, begin, end, i, j) || (begin <= i && j == i + 2 < end && i + 1 in drop)
    ensures Next(Erase(lines, drop), Rank(lines, drop, begin), Rank(lines, drop, end), Rank(lines, drop, i),
      Rank(lines, drop, j))
  {
    hide Kept, Erase, Rank, Dropped, IsDropSet, LoopHead;
    SegmentImage(lines, drop, begin, end);
    RankOver(lines, drop, i + 1);
    KeptAtRank(lines, drop, i);
    KeptAtRank(lines, drop, j);
    RankGrows(lines, drop, begin, i);
    RankGrows(lines, drop, begin, j);
    RankGrows(lines, drop, i, end);
    RankGrows(lines, drop, j, end);
  }

  /** A path and one more line of it. */
  lemma Extend(lines: seq<Line>, begin: nat, end: nat, path: seq<nat>, i: nat)
    requires IsPath(lines, begin, end, path) && begin <= i < end <= |lines|
    requires path != [] ==> Next(lines, begin, end, path[|path| - 1], i)
    ensures IsPath(lines, begin, end, path + [i])
    ensures Trace(lines, path + [i]) == Trace(lines, path) + if lines[i].Checkpoint? then [] else [lines[i]]
  {
    PathAppend(lines, begin, end, path, i);
    TraceAppend(lines, path, i);
  }

  lemma NoPath(lines: seq<Line>, begin: nat, end: nat)
    ensures IsPath(lines, begin, end, []) && Trace(lines, []) == []
  {
  }

  lemma PathEnds(lines: seq<Line>, begin: nat, end: nat, path: seq<nat>)
    requires IsPath(lines, begin, end, path) && path != []
    ensures begin <= path[|path| - 1] < end <= |lines|
  {
  }

  lemma RankInside(lines: seq<Line>, drop: set<nat>, begin: nat, end: nat, i: nat)
    requires begin <= i < end <= |lines| && i !in drop
    ensures Rank(lines, drop, begin) <= Rank(lines, drop, i) < Rank(lines, drop, end) <= |Erase(lines, drop)|
    ensures Erase(lines, drop)[Rank(lines, drop, i)] == lines[i]
  {
    RankGrows(lines, drop, begin, i);
    RankGrows(lines, drop, i, end);
    RankGrows(lines, drop, end, |lines|);
    KeptAtRank(lines, drop, i);
  }

  /** A step onto a dropped checkpoint comes from the line above it, and the next step
      goes to the line below. */
  lemma OverCheckpoint(lines: seq<Line>, drop: set<nat>, begin: nat, end: nat, i: nat, d: nat, j: nat)
    requires IsDropSet(lines, drop) && d in drop
    requires Next(lines, begin, end, i, d) && Next(lines, begin, end, d, j)
    ensures i == d - 1 && j == d + 1 && i !in drop && j !in drop && begin <= i && j < end
  {
    DropsCheckpoints(lines, drop, d);
  }

  /** Every run of the source is a run of the output. */
  lemma {:induction false} RunsDown(lines: seq<Line>, drop: set<nat>, begin: nat, end: nat, path: seq<nat>)
      returns (image: seq<nat>)
    requires IsDropSet(lines, drop) && Segment(lines, begin, end)
    requires IsPath(lines, begin, end, path) && path != [] && path[0] !in drop
    ensures IsPath(Erase(lines, drop), Rank(lines, drop, begin), Rank(lines, drop, end), image) && image != []
    ensures image[0] == Rank(lines, drop, path[0])
    ensures Trace(Erase(lines, drop), image) == Trace(lines, path)
    ensures path[|path| - 1] !in drop ==> image[|image| - 1] == Rank(lines, drop, path[|path| - 1])
    ensures path[|path| - 1] in drop ==> |path| > 1 && image[|image| - 1] == Rank(lines, drop, path[|path| - 2])
  {
    hide *;
    var last := path[|path| - 1];
    var shorter := path[..|path| - 1];
    assert path == shorter + [last];
    PathEnds(lines, begin, end, path);
    PathPrefix(lines, begin, end, path);
    Extend(lines, begin, end, shorter, last);
    NoPath(lines, begin, end);
    NoPath(Erase(lines, drop), Rank(lines, drop, begin), Rank(lines, drop, end));
    image := [];
    if |path| > 1 {
      image := RunsDown(lines, drop, begin, end, shorter);
    }
    if last in drop {
      DropsCheckpoints(lines, drop, last);
    } else {
      RankInside(lines, drop, begin, end, last);
      if |path| > 1 {
        var prev := path[|path| - 2];
        if prev in drop {
          PathPrefix(lines, begin, end, shorter);
          OverCheckpoint(lines, drop, begin, end, path[|path| - 3], prev, last);
          StepImage(lines, drop, begin, end, prev - 1, last);
        } else {
          StepImage(lines, drop, begin, end, prev, last);
        }
      }
      Extend(Erase(lines, drop), Rank(lines, drop, begin), Rank(lines, drop, end), image, Rank(lines, drop, last));
      image := image + [Rank(lines, drop, last)];
    }
  }

  /** Two lines next to each other in the output are next to each other in the source,
      or one dropped checkpoint apart. */
  lemma StepOrigin(lines: seq<Line>, drop: set<nat>, i: nat, j: nat)
    requires IsDropSet(lines, drop) && i < |lines| && j < |lines| && i !in drop && j !in drop
    requires Rank(lines, drop, j) == Rank(lines, drop, i) + 1
    ensures j == i + 1 || (j == i + 2 && i + 1 in drop)
  {
    RankInjective(lines, drop, i, j);
    KeptAtRank(lines, drop, i);
    if j > i + 1 {
      RankGrows(lines, drop, i + 1, j);
      DropsCheckpoints(lines, drop, i + 1);
      if j > i + 2 {
        RankGrows(lines, drop, i + 2, j);
        RankGrows(lines, drop, i + 1, i + 2);
      }
    }
  }

  /** One step of the output, taken in the source over the checkpoint dropped in between. */
  lemma StepUp(lines: seq<Line>, drop: set<nat>, begin: nat, end: nat, path: seq<nat>, j: nat)
      returns (longer: seq<nat>)
    requires IsDropSet(lines, drop) && Segment(lines, begin, end) && IsPath(lines, begin, end, path) && path != []
    requires begin <= j < end && j !in drop && path[|path| - 1] !in drop && path[|path| - 1] < |lines|
    requires Next(Erase(lines, drop), Rank(lines, drop, begin), Rank(lines, drop, end),
      Rank(lines, drop, path[|path| - 1]), Rank(lines, drop, j))
    ensures IsPath(lines, begin, end, longer) && longer != [] && longer[0] == path[0] && longer[|longer| - 1] == j
    ensures Trace(lines, longer) == Trace(lines, path) + if lines[j].Checkpoint? then [] else [lines[j]]
  {
    hide *;
    var i := path[|path| - 1];
    PathEnds(lines, begin, end, path);
    StepBack(lines, drop, begin, end, i, j);
    longer := path;
    if i + 1 in drop && j == i + 2 {
      DropsCheckpoints(lines, drop, i + 1);
      Extend(lines, begin, end, path, i + 1);
      longer := path + [i + 1];
    }
    Extend(lines, begin, end, longer, j);
    longer := longer + [j];
  }

  lemma StepBack(lines: seq<Line>, drop: set<nat>, begin: nat, end: nat, i: nat, j: nat)
    requires IsDropSet(lines, drop) && Segment(lines, begin, end)
    requires begin <= i < end && begin <= j < end && i !in drop && j !in drop
    requires Next(Erase(lines, drop), Rank(lines, drop, begin), Rank(lines, drop, end), Rank(lines, drop, i),
      Rank(lines, drop, j))
    ensures Next(lines, begin, end, i, j) || (i + 1 in drop && j == i + 2)
    ensures i + 1 in drop && j == i + 2 ==> Next(lines, begin, end, i, i + 1) && Next(lines, begin, end, i + 1, j)
  {
    hide Rank, Erase, IsDropSet;
    KeptAtRank(lines, drop, i);
    KeptAtRank(lines, drop, j);
    if Rank(lines, drop, j) == Rank(lines, drop, i) + 1 {
      StepOrigin(lines, drop, i, j);
    }
  }

  /** And every run of the output is a run of the source. */
  lemma {:induction false} RunsUp(lines: seq<Line>, drop: set<nat>, begin: nat, end: nat, image: seq<nat>)
      returns (path: seq<nat>)
    requires IsDropSet(lines, drop) && Segment(lines, begin, end)
    requires IsPath(Erase(lines, drop), Rank(lines, drop, begin), Rank(lines, drop, end), image) && image != []
    ensures IsPath(lines, begin, end, path) && path != []
    ensures path[0] !in drop && path[0] < |lines| && image[0] == Rank(lines, drop, path[0])
    ensures path[|path| - 1] !in drop && path[|path| - 1] < |lines|
      && image[|image| - 1] == Rank(lines, drop, path[|path| - 1])
    ensures Trace(lines, path) == Trace(Erase(lines, drop), image)
  {
    hide *;
    SegmentBounds(lines, begin, end);
    var last := image[|image| - 1];
    var shorter := image[..|image| - 1];
    assert image == shorter + [last];
    PathEnds(Erase(lines, drop), Rank(lines, drop, begin), Rank(lines, drop, end), image);
    PathPrefix(Erase(lines, drop), Rank(lines, drop, begin), Rank(lines, drop, end), image);
    Extend(Erase(lines, drop), Rank(lines, drop, begin), Rank(lines, drop, end), shorter, last);
    var j := Inside(lines, drop, begin, end, last);
    if |image| == 1 {
      NoPath(lines, begin, end);
      NoPath(Erase(lines, drop), Rank(lines, drop, begin), Rank(lines, drop, end));
      Extend(lines, begin, end, [], j);
      path := [] + [j];
    } else {
      path := RunsUp(lines, drop, begin, end, shorter);
      path := StepUp(lines, drop, begin, end, path, j);
    }
  }

  lemma Inside(lines: seq<Line>, drop: set<nat>, begin: nat, end: nat, k: nat) returns (j: nat)
    requires IsDropSet(lines, drop) && Segment(lines, begin, end)
    requires Rank(lines, drop, begin) <= k < Rank(lines, drop, end)
    ensures begin <= j < end <= |lines| && j !in drop && Rank(lines, drop, j) == k
    ensures k < |Erase(lines, drop)| && Erase(lines, drop)[k] == lines[j]
  {
    j := OriginOf(lines, drop, end, k);
    KeptAtRank(lines, drop, j);
    StartKept(lines, drop, begin);
    KeptAtRank(lines, drop, begin);
    if j < begin {
      RankGrows(lines, drop, j, begin);
    }
  }

  lemma SegmentBounds(lines: seq<Line>, begin: nat, end: nat)
    requires Segment(lines, begin, end)
    ensures begin < end <= |lines|
  {
  }

  /** trace is what some path of the function from line start runs, checkpoints aside. */
  ghost predicate Runs(lines: seq<Line>, begin: nat, end: nat, start: nat, trace: seq<Line>) {
    exists path :: IsPath(lines, begin, end, path) && path != [] && path[0] == start && Trace(lines, path) == trace
  }

  /** Checkpoints aside, the output has exactly the source's runs. */
  lemma SameRuns(lines: seq<Line>, drop: set<nat>, begin: nat, end: nat, start: nat, trace: seq<Line>)
    requires IsDropSet(lines, drop) && Segment(lines, begin, end) && start < |lines| && start !in drop
    ensures Runs(lines, begin, end, start, trace) <==>
      Runs(Erase(lines, drop), Rank(lines, drop, begin), Rank(lines, drop, end), Rank(lines, drop, start), trace)
  {
    hide IsDropSet, Segment, IsPath, Trace, Erase, Rank;
    SegmentBounds(lines, begin, end);
    if Runs(lines, begin, end, start, trace) {
      var path :| IsPath(lines, begin, end, path) && path != [] && path[0] == start && Trace(lines, path) == trace;
      var image := RunsDown(lines, drop, begin, end, path);
    }
    var output, begin', end' := Erase(lines, drop), Rank(lines, drop, begin), Rank(lines, drop, end);
    if Runs(output, begin', end', Rank(lines, drop, start), trace) {
      var image :| IsPath(output, begin', end', image) && image != [] && image[0] == Rank(lines, drop, start)
        && Trace(output, image) == trace;
      var path := RunsUp(lines, drop, begin, end, image);
      SameBegin(lines, drop, path[0], start);
    }
  }
}
