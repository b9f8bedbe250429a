/** The generator's checkpoint_loop_heads and the removal from existing output: when the
    two give the same text, and when removing twice is removing once. */
module CheckpointAgreement {
  import opened Checkpoints
  import opened CheckpointSafety

  // ------------------------------------------------------------ inserting checkpoints

  /** The checkpoint line written after a label, with the label's line ending. */
  function CheckpointFor(line: Line): Line {
    Checkpoint(line.Label? && line.cr)
  }

  /** The first lines of a body, each marked one followed by a checkpoint. */
  function Inserted(body: seq<Line>, mark: seq<bool>, end: nat): seq<Line>
    requires end <= |body| == |mark|
  {
    if end == 0 then []
    else Inserted(body, mark, end - 1) + [body[end - 1]] + if mark[end - 1] then [CheckpointFor(body[end - 1])] else []
  }

  /** Labels with a line after them: where a checkpoint can be written. */
  predicate TakesCheckpoint(body: seq<Line>, i: nat) {
    i + 1 < |body| && body[i].Label?
  }

  ghost predicate Marks(body: seq<Line>, mark: seq<bool>, heads: set<string>) {
    && |mark| == |body|
    && forall i | 0 <= i < |body| :: mark[i] <==> TakesCheckpoint(body, i) && body[i].name in heads
  }

  ghost predicate MarksAll(body: seq<Line>, mark: seq<bool>) {
    && |mark| == |body|
    && forall i | 0 <= i < |body| :: mark[i] <==> TakesCheckpoint(body, i)
  }

  ghost predicate LoopHeads(body: seq<Line>, heads: set<string>) {
    forall name :: name in heads <==> LoopHead(body, 0, |body|, name)
  }

  /** checkpoint_loop_heads, on the lines of one function: the body with a checkpoint after
      every label a goto at or after it returns to. */
  method CheckpointLoopHeads(body: seq<Line>) returns (output: seq<Line>)
    ensures exists mark, heads ::
      LoopHeads(body, heads) && Marks(body, mark, heads) && output == Inserted(body, mark, |body|)
  {
    var seen: set<string>, found: set<string> := {}, {};
    NoLoopsYet(body, 0);
    hide LoopHead;
    for i := 0 to |body|
      invariant forall name :: name in seen <==> exists k :: 0 <= k < i && IsLabel(body[k], name)
      invariant LoopsUpTo(body, 0, i, found)
    {
      if body[i].Label? {
        seen := seen + {body[i].name};
      }
      var gotos := Gotos(body[i]);
      found := found + set name | name in gotos && name in seen;
      forall name ensures name in found <==> LoopHead(body, 0, i + 1, name) {
        LoopHeadGrows(body, 0, i, name);
      }
    }
    output := [];
    ghost var marked := seq(|body|, i requires 0 <= i < |body| => TakesCheckpoint(body, i) && body[i].name in found);
    for i := 0 to |body|
      invariant output == Inserted(body, marked, i)
    {
      output := output + [body[i]];
      if TakesCheckpoint(body, i) && body[i].name in found {
        output := output + [CheckpointFor(body[i])];
      }
    }
    assert LoopHeads(body, found) && Marks(body, marked, found);
  }

  // ------------------------------------------------------------ positions

  function Pos(body: seq<Line>, mark: seq<bool>, i: nat): nat
    requires i <= |body| == |mark|
  {
    |Inserted(body, mark, i)|
  }

  lemma {:induction false} PosGrows(body: seq<Line>, mark: seq<bool>, i: nat, j: nat)
    requires i <= j <= |body| == |mark|
    ensures Pos(body, mark, i) + (j - i) <= Pos(body, mark, j)
    ensures Inserted(body, mark, j)[..Pos(body, mark, i)] == Inserted(body, mark, i)
  {
    if i < j {
      PosGrows(body, mark, i, j - 1);
    }
  }

  /** Each line is in the result, and after a marked label a checkpoint with its line ending. */
  lemma AtPos(body: seq<Line>, mark: seq<bool>, i: nat)
    requires i < |body| == |mark|
    ensures var full := Inserted(body, mark, |body|);
      && Pos(body, mark, i) < |full| && full[Pos(body, mark, i)] == body[i]
      && Pos(body, mark, i + 1) == Pos(body, mark, i) + (if mark[i] then 2 else 1) <= |full|
      && (mark[i] ==> full[Pos(body, mark, i) + 1] == Checkpoint(body[i].Label? && body[i].cr))
  {
    PosGrows(body, mark, i + 1, |body|);
    var full := Inserted(body, mark, |body|);
    var upTo := Inserted(body, mark, i + 1);
    assert full[..Pos(body, mark, i + 1)] == upTo;
    assert upTo == Inserted(body, mark, i) + [body[i]] + if mark[i] then [CheckpointFor(body[i])] else [];
    assert full[Pos(body, mark, i)] == upTo[Pos(body, mark, i)];
  }

  /** Every line of the result is a line of the body or a checkpoint after one. */
  lemma {:induction false} PosOf(body: seq<Line>, mark: seq<bool>, end: nat, k: nat) returns (i: nat)
    requires end <= |body| == |mark| && k < Pos(body, mark, end)
    ensures i < end && (k == Pos(body, mark, i) || (k == Pos(body, mark, i) + 1 && mark[i]))
  {
    if Pos(body, mark, end - 1) <= k {
      i := end - 1;
    } else {
      i := PosOf(body, mark, end - 1, k);
    }
  }

  /** More marks make a longer text, strictly so when one is new. */
  lemma {:induction false} MoreMarks(body: seq<Line>, a: seq<bool>, b: seq<bool>, end: nat)
    requires end <= |body| == |a| == |b|
    requires forall i | 0 <= i < end :: a[i] ==> b[i]
    ensures Pos(body, a, end) <= Pos(body, b, end)
    ensures (exists i :: 0 <= i < end && a[i] != b[i]) ==> Pos(body, a, end) < Pos(body, b, end)
    ensures (forall i | 0 <= i < end :: a[i] == b[i]) ==> Inserted(body, a, end) == Inserted(body, b, end)
  {
    if end > 0 {
      MoreMarks(body, a, b, end - 1);
    }
  }

  /** Dropping the checkpoints of the lines that lose their mark leaves the text with the others. */
  lemma {:induction false} DropMarks(body: seq<Line>, all: seq<bool>, some: seq<bool>, drop: set<nat>, end: nat)
    requires end <= |body| == |all| == |some|
    requires forall i | 0 <= i < |body| :: some[i] ==> all[i]
    requires forall i | 0 <= i < |body| :: Pos(body, all, i) !in drop
    requires forall i | 0 <= i < |body| && all[i] :: Pos(body, all, i) + 1 in drop <==> !some[i]
    ensures Pos(body, all, end) <= |Inserted(body, all, |body|)|
    ensures Kept(Inserted(body, all, |body|), drop, Pos(body, all, end)) == Inserted(body, some, end)
  {
    PosGrows(body, all, end, |body|);
    if end > 0 {
      DropMarks(body, all, some, drop, end - 1);
      AtPos(body, all, end - 1);
      var full := Inserted(body, all, |body|);
      var k := Pos(body, all, end - 1);
      assert Kept(full, drop, k + 1) == Kept(full, drop, k) + [full[k]];
      if all[end - 1] {
        assert Kept(full, drop, k + 2) == Kept(full, drop, k + 1) + if k + 1 in drop then [] else [full[k + 1]];
      }
    }
  }

  // ------------------------------------------------------------ agreement

  /** A body with a checkpoint written after every label. */
  function Full(body: seq<Line>, all: seq<bool>): seq<Line>
    requires |body| == |all|
  {
    Inserted(body, all, |body|)
  }

  lemma FullSegment(body: seq<Line>, all: seq<bool>, begin: nat, end: nat)
    requires Segment(body, 0, |body|) && MarksAll(body, all)
    ensures Segment(Full(body, all), begin, end) <==> begin == 0 && end == |Full(body, all)|
  {
    var full := Full(body, all);
    AtPos(body, all, 0);
    assert full[0].FuncStart?;
    forall k | 0 < k < |full| ensures !full[k].FuncStart? {
      var i := PosOf(body, all, |body|, k);
      AtPos(body, all, i);
    }
  }

  lemma FullReturns(body: seq<Line>, all: seq<bool>, i: nat, j: nat, name: string)
    requires MarksAll(body, all) && Returns(body, 0, |body|, i, j, name)
    ensures Returns(Full(body, all), 0, |Full(body, all)|, Pos(body, all, i), Pos(body, all, j), name)
  {
    AtPos(body, all, i);
    AtPos(body, all, j);
    PosGrows(body, all, i, j);
  }

  lemma LoopHeadSame(body: seq<Line>, all: seq<bool>, name: string)
    requires MarksAll(body, all)
    ensures LoopHead(Full(body, all), 0, |Full(body, all)|, name) <==> LoopHead(body, 0, |body|, name)
  {
    var full := Full(body, all);
    if LoopHead(body, 0, |body|, name) {
      var i: nat, j: nat :| Returns(body, 0, |body|, i, j, name);
      FullReturns(body, all, i, j, name);
    }
    if LoopHead(full, 0, |full|, name) {
      var k: nat, m: nat :| Returns(full, 0, |full|, k, m, name);
      ReturnsFrom(body, all, k, m, name);
    }
  }

  lemma ReturnsFrom(body: seq<Line>, all: seq<bool>, k: nat, m: nat, name: string)
    requires MarksAll(body, all) && Returns(Full(body, all), 0, |Full(body, all)|, k, m, name)
    ensures LoopHead(body, 0, |body|, name)
  {
    hide Inserted, TakesCheckpoint;
    var i := PosOf(body, all, |body|, k);
    var j := PosOf(body, all, |body|, m);
    AtPos(body, all, i);
    AtPos(body, all, j);
    if j < i {
      PosGrows(body, all, j + 1, i);
    }
    assert Returns(body, 0, |body|, i, j, name);
  }

  lemma FullLength(body: seq<Line>, all: seq<bool>)
    requires |body| == |all|
    ensures |Full(body, all)| == Pos(body, all, |body|) && Full(body, all) == Inserted(body, all, |body|)
  {
  }

  lemma LastLabelSame(body: seq<Line>, all: seq<bool>, i: nat)
    requires MarksAll(body, all) && i < |body|
    ensures LastLabel(Full(body, all), 0, |Full(body, all)|, Pos(body, all, i)) <==> LastLabel(body, 0, |body|, i)
  {
    hide Inserted, TakesCheckpoint, Pos, Full;
    FullLength(body, all);
    var full := Full(body, all);
    AtPos(body, all, i);
    if LastLabel(body, 0, |body|, i) {
      forall m | Pos(body, all, i) < m < |full| ensures !IsLabel(full[m], body[i].name) {
        var j := PosOf(body, all, |body|, m);
        AtPos(body, all, j);
        if j < i {
          PosGrows(body, all, j + 1, i);
        }
      }
    }
    if LastLabel(full, 0, |full|, Pos(body, all, i)) {
      forall j | i < j < |body| ensures !IsLabel(body[j], body[i].name) {
        AtPos(body, all, j);
        PosGrows(body, all, i + 1, j);
      }
    }
  }

  /** The labels whose checkpoint forward_checkpoints drops. */
  ghost predicate LosesCheckpoint(body: seq<Line>, i: nat) {
    LastLabel(body, 0, |body|, i) && !LoopHead(body, 0, |body|, body[i].name)
  }

  lemma DroppedInFull(body: seq<Line>, all: seq<bool>, drop: set<nat>, i: nat)
    requires Segment(body, 0, |body|) && MarksAll(body, all) && IsDropSet(Full(body, all), drop) && i < |body|
    ensures Pos(body, all, i) !in drop
    ensures all[i] ==> (Pos(body, all, i) + 1 in drop <==> LosesCheckpoint(body, i))
  {
    hide LoopHead, Segment;
    var full := Full(body, all);
    AtPos(body, all, i);
    DropIsHere(body, all, drop, Pos(body, all, i));
    if i > 0 {
      AtPos(body, all, i - 1);
    }
    if all[i] {
      DropIsHere(body, all, drop, Pos(body, all, i) + 1);
      LastLabelSame(body, all, i);
      LoopHeadSame(body, all, body[i].name);
    }
  }

  lemma DropIsHere(body: seq<Line>, all: seq<bool>, drop: set<nat>, d: nat)
    requires Segment(body, 0, |body|) && MarksAll(body, all) && IsDropSet(Full(body, all), drop)
    ensures d in drop <==> DroppedIn(Full(body, all), 0, |Full(body, all)|, d)
  {
    hide LoopHead, DroppedIn;
    var full := Full(body, all);
    FullSegment(body, all, 0, |full|);
    if d in drop {
      var begin: nat, end: nat :| Segment(full, begin, end) && DroppedIn(full, begin, end, d);
      FullSegment(body, all, begin, end);
    }
  }

  /** Only loop heads are defined twice; a C++ function defines no label twice. */
  ghost predicate OnlyHeadsRepeat(body: seq<Line>) {
    forall i, j | 0 <= i < j < |body| && body[i].Label? && IsLabel(body[j], body[i].name) ::
      LoopHead(body, 0, |body|, body[i].name)
  }

  /** Removing forward checkpoints from a function that has one after every label gives what
      the generator writes for the bare function, exactly when no label that is not a loop
      head is defined twice. */
  lemma ImplementationsAgree(body: seq<Line>, all: seq<bool>, mark: seq<bool>, heads: set<string>, drop: set<nat>)
    requires Segment(body, 0, |body|) && MarksAll(body, all) && IsDropSet(Full(body, all), drop)
    requires LoopHeads(body, heads) && Marks(body, mark, heads)
    ensures Erase(Full(body, all), drop) == Inserted(body, mark, |body|) <==> OnlyHeadsRepeat(body)
  {
    hide *;
    SomeMarksAre(body, all, mark, heads, drop);
    var some := SomeMarks(body, all, heads);
    DropMarks(body, all, some, drop, |body|);
    MoreMarks(body, mark, some, |body|);
    FullIs(body, all, drop);
    SomeIsMark(body, all, mark, heads);
  }

  /** The marks forward_checkpoints leaves. */
  ghost function SomeMarks(body: seq<Line>, all: seq<bool>, heads: set<string>): (some: seq<bool>)
    requires |all| == |body|
    ensures |some| == |body|
  {
    seq(|body|, i requires 0 <= i < |body| => all[i] && !(LastLabelOf(body, i) && body[i].name !in heads))
  }

  lemma SomeMarksAre(body: seq<Line>, all: seq<bool>, mark: seq<bool>, heads: set<string>, drop: set<nat>)
    requires Segment(body, 0, |body|) && MarksAll(body, all) && IsDropSet(Full(body, all), drop)
    requires LoopHeads(body, heads) && Marks(body, mark, heads)
    ensures var some := SomeMarks(body, all, heads);
      && |all| == |mark| == |body|
      && (forall i | 0 <= i < |body| :: (some[i] ==> all[i]) && (mark[i] ==> some[i]))
      && (forall i | 0 <= i < |body| :: Pos(body, all, i) !in drop)
      && forall i | 0 <= i < |body| && all[i] :: Pos(body, all, i) + 1 in drop <==> !some[i]
  {
    hide LoopHead, Segment, IsDropSet, Pos, Full, TakesCheckpoint;
    forall i | 0 <= i < |body|
      ensures Pos(body, all, i) !in drop && (all[i] ==> (Pos(body, all, i) + 1 in drop <==> LosesCheckpoint(body, i)))
    {
      DroppedInFull(body, all, drop, i);
    }
  }

  lemma SomeIsMark(body: seq<Line>, all: seq<bool>, mark: seq<bool>, heads: set<string>)
    requires MarksAll(body, all) && Marks(body, mark, heads)
    requires LoopHeads(body, heads)
    ensures (forall i | 0 <= i < |body| :: mark[i] == SomeMarks(body, all, heads)[i]) <==> OnlyHeadsRepeat(body)
  {
    hide LoopHead;
    var some := SomeMarks(body, all, heads);
    if !OnlyHeadsRepeat(body) {
      var i, j :| 0 <= i < j < |body| && body[i].Label? && IsLabel(body[j], body[i].name) && body[i].name !in heads;
      assert mark[i] != some[i];
    }
  }

  lemma FullIs(body: seq<Line>, all: seq<bool>, drop: set<nat>)
    requires |all| == |body|
    ensures Full(body, all) == Inserted(body, all, |body|)
    ensures Erase(Full(body, all), drop) == Kept(Full(body, all), drop, Pos(body, all, |body|))
    ensures forall mark: seq<bool> | |mark| == |body| :: Pos(body, mark, |body|) == |Inserted(body, mark, |body|)|
  {
  }

  predicate LastLabelOf(body: seq<Line>, i: nat)
    ensures LastLabelOf(body, i) <==> LastLabel(body, 0, |body|, i)
  {
    i < |body| && body[i].Label? && forall k | i < k < |body| :: !IsLabel(body[k], body[i].name)
  }

  // ------------------------------------------------------------ doing it twice

  /** A dropped checkpoint with another right after it, which a second pass would drop. */
  ghost predicate DoubledAt(lines: seq<Line>, drop: set<nat>, d: nat) {
    d in drop && d + 1 < |lines| && lines[d + 1].Checkpoint?
  }

  lemma {:induction false} ErasedLength(lines: seq<Line>, drop: set<nat>, end: nat)
    requires end <= |lines|
    ensures |Kept(lines, drop, end)| <= end
    ensures |Kept(lines, drop, end)| == end ==> Kept(lines, drop, end) == lines[..end]
    ensures (exists d :: d < end && d in drop) ==> |Kept(lines, drop, end)| < end
    ensures (forall d | d in drop :: d >= end) ==> Kept(lines, drop, end) == lines[..end]
  {
    if end > 0 {
      ErasedLength(lines, drop, end - 1);
      assert lines[..end] == lines[..end - 1] + [lines[end - 1]];
    }
  }

  lemma LabelKept(lines: seq<Line>, drop: set<nat>, begin: nat, end: nat, i: nat)
    requires IsDropSet(lines, drop) && begin <= i < end <= |lines| && !lines[i].Checkpoint?
    ensures i !in drop && Rank(lines, drop, begin) <= Rank(lines, drop, i) < Rank(lines, drop, end)
      <= |Erase(lines, drop)|
    ensures Erase(lines, drop)[Rank(lines, drop, i)] == lines[i]
  {
    DropIs(lines, drop, i);
    RankInside(lines, drop, begin, end, i);
  }

  lemma LoopHeadKept(lines: seq<Line>, drop: set<nat>, begin: nat, end: nat, name: string)
    requires IsDropSet(lines, drop) && Segment(lines, begin, end)
    ensures LoopHead(Erase(lines, drop), Rank(lines, drop, begin), Rank(lines, drop, end), name)
      <==> LoopHead(lines, begin, end, name)
  {
    hide Rank, Erase, IsDropSet;
    var output, begin', end' := Erase(lines, drop), Rank(lines, drop, begin), Rank(lines, drop, end);
    if LoopHead(lines, begin, end, name) {
      var i: nat, j: nat :| Returns(lines, begin, end, i, j, name);
      LabelKept(lines, drop, begin, end, i);
      LabelKept(lines, drop, begin, end, j);
      RankGrows(lines, drop, i, j);
      assert Returns(output, begin', end', Rank(lines, drop, i), Rank(lines, drop, j), name);
    }
    if LoopHead(output, begin', end', name) {
      var k: nat, m: nat :| Returns(output, begin', end', k, m, name);
      var i := Inside(lines, drop, begin, end, k);
      var j := Inside(lines, drop, begin, end, m);
      if j < i {
        RankGrows(lines, drop, j, i);
      }
      assert Returns(lines, begin, end, i, j, name);
    }
  }

  lemma LastLabelKept(lines: seq<Line>, drop: set<nat>, begin: nat, end: nat, i: nat)
    requires IsDropSet(lines, drop) && Segment(lines, begin, end) && begin <= i < end && lines[i].Label?
    ensures LastLabel(Erase(lines, drop), Rank(lines, drop, begin), Rank(lines, drop, end), Rank(lines, drop, i)) <==>
      LastLabel(lines, begin, end, i)
  {
    hide Rank, Erase, IsDropSet;
    var output, begin', end' := Erase(lines, drop), Rank(lines, drop, begin), Rank(lines, drop, end);
    LabelKept(lines, drop, begin, end, i);
    if LastLabel(lines, begin, end, i) {
      forall m | Rank(lines, drop, i) < m < end' ensures !IsLabel(output[m], lines[i].name) {
        var j := Inside(lines, drop, begin, end, m);
        if j <= i {
          RankGrows(lines, drop, j, i);
        }
      }
    }
    if LastLabel(output, begin', end', Rank(lines, drop, i)) {
      forall j | i < j < end ensures !IsLabel(lines[j], lines[i].name) {
        if lines[j].Label? {
          LabelKept(lines, drop, begin, end, j);
          RankGrows(lines, drop, i, j);
        }
      }
    }
  }

  /** A doubled checkpoint is dropped by the second pass. */
  lemma DoubledDropsAgain(lines: seq<Line>, drop: set<nat>, d: nat)
    requires IsDropSet(lines, drop) && DoubledAt(lines, drop, d)
    ensures d + 1 < |lines| && d + 1 !in drop && Dropped(Erase(lines, drop), Rank(lines, drop, d + 1))
  {
    hide LoopHead, Rank, Erase;
    DropsCheckpoints(lines, drop, d);
    assert Dropped(lines, d);
    var begin: nat, end: nat :| Segment(lines, begin, end) && DroppedIn(lines, begin, end, d);
    SegmentImage(lines, drop, begin, end);
    LoopHeadKept(lines, drop, begin, end, lines[d - 1].name);
    LastLabelKept(lines, drop, begin, end, d - 1);
    LabelKept(lines, drop, begin, end, d - 1);
    RankInside(lines, drop, begin, end, d + 1);
    StepImage(lines, drop, begin, end, d - 1, d + 1);
    RankNext(lines, drop, d - 1);
    assert DroppedIn(Erase(lines, drop), Rank(lines, drop, begin), Rank(lines, drop, end), Rank(lines, drop, d + 1));
  }

  lemma RankNext(lines: seq<Line>, drop: set<nat>, i: nat)
    requires i + 2 <= |lines| && i !in drop && i + 1 in drop
    ensures Rank(lines, drop, i + 2) == Rank(lines, drop, i) + 1
  {
    KeptAtRank(lines, drop, i);
  }

  /** And nothing else is. */
  lemma DropsAgainDoubled(lines: seq<Line>, drop: set<nat>, k: nat) returns (d: nat)
    requires IsDropSet(lines, drop) && Dropped(Erase(lines, drop), k)
    ensures DoubledAt(lines, drop, d)
  {
    hide LoopHead, Rank, Erase;
    var output := Erase(lines, drop);
    var begin': nat, end': nat :| Segment(output, begin', end') && DroppedIn(output, begin', end', k);
    var begin, end, i := SegmentOrigin(lines, drop, begin', end', k - 1);
    var j := Inside(lines, drop, begin, end, k);
    StepOrigin(lines, drop, i, j);
    KeptAtRank(lines, drop, i);
    LoopHeadKept(lines, drop, begin, end, lines[i].name);
    LastLabelKept(lines, drop, begin, end, i);
    DroppedWhen(lines, drop, begin, end, j);
    d := i + 1;
  }

  lemma DroppedWhen(lines: seq<Line>, drop: set<nat>, begin: nat, end: nat, d: nat)
    requires IsDropSet(lines, drop) && Segment(lines, begin, end)
    ensures DroppedIn(lines, begin, end, d) ==> d in drop
  {
    assert DroppedIn(lines, begin, end, d) ==> Dropped(lines, d);
  }

  /** Removing forward checkpoints twice is removing them once, exactly when no dropped
      checkpoint has another right after it. */
  lemma TwiceIsOnce(lines: seq<Line>, drop: set<nat>, again: set<nat>)
    requires IsDropSet(lines, drop) && IsDropSet(Erase(lines, drop), again)
    ensures Erase(Erase(lines, drop), again) == Erase(lines, drop) <==> forall d: nat :: !DoubledAt(lines, drop, d)
  {
    hide Rank, Dropped;
    var output := Erase(lines, drop);
    ErasedLength(output, again, |output|);
    assert output[..|output|] == output;
    if forall d: nat :: !DoubledAt(lines, drop, d) {
      forall k | k in again ensures false {
        var d := DropsAgainDoubled(lines, drop, k);
      }
    } else {
      var d: nat :| DoubledAt(lines, drop, d);
      DropsCheckpoints(lines, drop, d);
      DoubledDropsAgain(lines, drop, d);
      DropIs(output, again, Rank(lines, drop, d + 1));
    }
  }

  // ------------------------------------------------------------ where they fail

  const REPEATED: seq<Line> := [FuncStart("f"), Label("a", false), Label("a", false), Statement("return;", [])]

  /** A label defined twice that no goto returns to: the script drops only the checkpoint after
      its last definition, the generator writes neither. */
  lemma RepeatedLabelDiffers(all: seq<bool>, mark: seq<bool>, heads: set<string>, drop: set<nat>)
    requires MarksAll(REPEATED, all) && IsDropSet(Full(REPEATED, all), drop)
    requires LoopHeads(REPEATED, heads) && Marks(REPEATED, mark, heads)
    ensures Segment(REPEATED, 0, |REPEATED|)
    ensures Erase(Full(REPEATED, all), drop) != Inserted(REPEATED, mark, |REPEATED|)
  {
    hide Full, Erase, Inserted, IsDropSet, MarksAll, Marks, LoopHeads;
    assert REPEATED[1].Label? && IsLabel(REPEATED[2], REPEATED[1].name);
    ImplementationsAgree(REPEATED, all, mark, heads, drop);
  }

  /** Two checkpoints after a label no goto returns to: each pass drops one. */
  lemma DoubledCheckpointDiffers(drop: set<nat>, again: set<nat>)
    requires var lines := [FuncStart("f"), Label("a", false), Checkpoint(false), Checkpoint(false)];
      IsDropSet(lines, drop) && IsDropSet(Erase(lines, drop), again)
    ensures var lines := [FuncStart("f"), Label("a", false), Checkpoint(false), Checkpoint(false)];
      drop == {2} && Erase(Erase(lines, drop), again) != Erase(lines, drop)
  {
    hide Erase;
    var lines := [FuncStart("f"), Label("a", false), Checkpoint(false), Checkpoint(false)];
    assert Segment(lines, 0, 4) && DroppedIn(lines, 0, 4, 2);
    assert Dropped(lines, 2);
    forall d | d in drop ensures d == 2 {
      DropIs(lines, drop, d);
    }
    assert DoubledAt(lines, drop, 2);
    TwiceIsOnce(lines, drop, again);
  }
}
