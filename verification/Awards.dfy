/** Awards and the store that writes them (src/achievements.cpp): add_unlocked, and the worker
    thread's steps under every interleaving with awards and waits. */
module Awards {
  import opened Stamps
  import opened Unlocked

  // ------------------------------------------------------------ adding

  function Add(list: seq<Entry>, e: Entry): seq<Entry> {
    if Has(list, e.id) then list else list + [e]
  }

  /** Awards added one after another, in order. */
  function AddAll(list: seq<Entry>, awards: seq<Entry>): seq<Entry> {
    if awards == [] then list else Add(AddAll(list, awards[..|awards| - 1]), awards[|awards| - 1])
  }

  function Stamped(ids: seq<nat>, now: int): (awards: seq<Entry>)
    ensures |awards| == |ids|
  {
    seq(|ids|, k requires 0 <= k < |ids| => Entry(ids[k], now))
  }

  lemma AddAllOne(list: seq<Entry>, awards: seq<Entry>, e: Entry)
    ensures AddAll(list, awards + [e]) == Add(AddAll(list, awards), e)
  {
    assert (awards + [e])[..|awards|] == awards;
  }

  /** Batches do not matter: adding some awards and then others is adding them all. */
  lemma {:induction false} BatchesJoin(list: seq<Entry>, first: seq<Entry>, second: seq<Entry>)
    ensures AddAll(list, first + second) == AddAll(AddAll(list, first), second)
    decreases |second|
  {
    hide Add;
    if second == [] {
      assert first + second == first;
    } else {
      var last := |second| - 1;
      assert first + second == (first + second[..last]) + [second[last]];
      AddAllOne(list, first + second[..last], second[last]);
      BatchesJoin(list, first, second[..last]);
    }
  }

  /** Nothing already unlocked changes or moves. */
  lemma {:induction false} EarlierStays(list: seq<Entry>, awards: seq<Entry>)
    ensures list <= AddAll(list, awards)
    decreases |awards|
  {
    if awards != [] {
      EarlierStays(list, awards[..|awards| - 1]);
    }
  }

  lemma {:induction false} StaysDistinct(list: seq<Entry>, awards: seq<Entry>)
    requires Distinct(list)
    ensures Distinct(AddAll(list, awards))
    decreases |awards|
  {
    if awards != [] {
      StaysDistinct(list, awards[..|awards| - 1]);
    }
  }

  predicate FirstAward(awards: seq<Entry>, e: Entry) {
    exists k :: 0 <= k < |awards| && awards[k] == e && !Has(awards[..k], e.id)
  }

  /** What is unlocked afterwards: what was, and of each id awarded for the first time its first award. */
  lemma {:induction false} UnlockedAfter(list: seq<Entry>, awards: seq<Entry>, e: Entry)
    ensures e in AddAll(list, awards) <==> e in list || (FirstAward(awards, e) && !Has(list, e.id))
    ensures Has(AddAll(list, awards), e.id) <==> Has(list, e.id) || Has(awards, e.id)
    decreases |awards|
  {
    hide FirstAward;
    if awards == [] {
      NoFirst(e);
    } else {
      var before, last := awards[..|awards| - 1], awards[|awards| - 1];
      assert awards == before + [last];
      UnlockedAfter(list, before, e);
      UnlockedAfter(list, before, last);
      FirstOfMore(before, last, e);
      HasMore(before, last, e.id);
      HasMore(AddAll(list, before), last, e.id);
    }
  }

  lemma NoFirst(e: Entry)
    ensures !FirstAward([], e) && !Has([], e.id)
  {
  }

  lemma HasMore(list: seq<Entry>, last: Entry, id: nat)
    ensures Has(list + [last], id) <==> Has(list, id) || last.id == id
  {
    if Has(list, id) {
      var k :| 0 <= k < |list| && list[k].id == id;
      assert (list + [last])[k].id == id;
    } else if last.id == id {
      assert (list + [last])[|list|].id == id;
    }
  }

  lemma FirstOfMore(before: seq<Entry>, last: Entry, e: Entry)
    ensures FirstAward(before + [last], e) <==> FirstAward(before, e) || (e == last && !Has(before, e.id))
  {
    var awards := before + [last];
    assert awards[..|before|] == before;
    if FirstAward(before, e) {
      var k :| 0 <= k < |before| && before[k] == e && !Has(before[..k], e.id);
      assert awards[k] == e && awards[..k] == before[..k];
    }
    if e == last && !Has(before, e.id) {
      assert awards[|before|] == e;
    }
    if FirstAward(awards, e) {
      var k :| 0 <= k < |awards| && awards[k] == e && !Has(awards[..k], e.id);
      if k < |before| {
        assert before[k] == e && awards[..k] == before[..k];
      }
    }
  }

  /** add_unlocked: the list with the awards added, and the ids that were new, in order. */
  method AddUnlocked(list: seq<Entry>, ids: seq<nat>, now: int) returns (after: seq<Entry>, added: seq<nat>)
    ensures after == AddAll(list, Stamped(ids, now))
    ensures after == list + Stamped(added, now)
    ensures forall id :: id in added <==> id in ids && !Has(list, id)
    ensures forall i, j | 0 <= i < j < |added| :: added[i] != added[j]
  {
    after, added := list, [];
    assert list == list + Stamped([], now);
    for k := 0 to |ids|
      invariant after == AddAll(list, Stamped(ids[..k], now))
      invariant after == list + Stamped(added, now)
      invariant forall id :: id in added <==> id in ids[..k] && !Has(list, id)
      invariant forall i, j | 0 <= i < j < |added| :: added[i] != added[j]
    {
      var id := ids[k];
      assert ids[..k + 1] == ids[..k] + [id];
      StampedMore(ids[..k], id, now);
      AddAllOne(list, Stamped(ids[..k], now), Entry(id, now));
      HasStamped(list, added, now, id);
      if !Has(after, id) {
        StampedMore(added, id, now);
        after := after + [Entry(id, now)];
        added := added + [id];
      }
    }
    assert ids[..|ids|] == ids;
  }

  lemma StampedMore(ids: seq<nat>, id: nat, now: int)
    ensures Stamped(ids + [id], now) == Stamped(ids, now) + [Entry(id, now)]
  {
  }

  lemma HasStamped(list: seq<Entry>, added: seq<nat>, now: int, id: nat)
    ensures Has(list + Stamped(added, now), id) <==> Has(list, id) || id in added
  {
    var all := list + Stamped(added, now);
    if Has(list, id) {
      var k :| 0 <= k < |list| && list[k].id == id;
      assert all[k].id == id;
    }
    if id in added {
      var k :| 0 <= k < |added| && added[k] == id;
      assert all[|list| + k].id == id;
    }
  }

  // ------------------------------------------------------------ the file

  /** What a player has unlocked once the awards are in, starting from a file. */
  function Expected(start: string, player: string, awards: seq<Entry>): Unlocks {
    var u := Parsed(start);
    Unlocks(if u.player == "" then player else u.player, AddAll(u.list, awards))
  }

  /** The file once the awards are in: as it was when none of them is new. */
  function FileText(start: string, player: string, awards: seq<Entry>): string {
    if Expected(start, player, awards).list == Parsed(start).list then start
    else Ended(FileLines(Expected(start, player, awards)))
  }

  /** The list a later reader finds, when the awards can be written and read back. */
  lemma FileHoldsAwards(start: string, player: string, awards: seq<Entry>)
    requires ListFits(Expected(start, player, awards).list) && PlayerFits(Expected(start, player, awards).player)
    ensures Parsed(FileText(start, player, awards)).list == AddAll(Parsed(start).list, awards)
  {
    hide Parsed, AddAll, Ended, FileLines, ListFits, PlayerFits;
    FileRoundTrip(Expected(start, player, awards));
  }

  lemma NothingNew(start: string, player: string)
    ensures FileText(start, player, []) == start
  {
  }

  /** From one file to a later one no entry is lost, moved or given another time. */
  lemma TimesNeverChange(start: string, player: string, done: seq<Entry>, more: seq<Entry>)
    ensures Expected(start, player, done).list <= Expected(start, player, done + more).list
  {
    hide Parsed;
    BatchesJoin(Parsed(start).list, done, more);
    EarlierStays(AddAll(Parsed(start).list, done), more);
  }

  lemma {:induction false} ReadingStaysDistinct(u: Unlocks, lines: seq<string>)
    requires Distinct(u.list)
    ensures Distinct(ReadLines(u, lines).list)
    decreases |lines|
  {
    if lines != [] {
      LineStaysDistinct(u, lines[0]);
      ReadingStaysDistinct(ReadLine(u, lines[0]), lines[1..]);
    }
  }

  lemma LineStaysDistinct(u: Unlocks, line: string)
    requires Distinct(u.list)
    ensures Distinct(ReadLine(u, line).list)
  {
    hide Trim, Find, Number, ParsedUtc, IsKey;
  }

  /** However often an id stands in the file or is awarded, it is listed once. */
  lemma NoIdTwice(start: string, player: string, awards: seq<Entry>)
    ensures Distinct(Expected(start, player, awards).list)
  {
    hide ReadLines, AddAll, Lines;
    ReadingStaysDistinct(Unlocks("", []), Lines(start));
    StaysDistinct(Parsed(start).list, awards);
  }

  /** The worker's next write. */
  lemma NextFile(start: string, player: string, done: seq<Entry>, batch: seq<Entry>)
    ensures Expected(start, player, done + batch)
      == Expected(start, player, done).(list := AddAll(Expected(start, player, done).list, batch))
    ensures Expected(start, player, done + batch).list == Expected(start, player, done).list ==>
      FileText(start, player, done + batch) == FileText(start, player, done)
    ensures Expected(start, player, done + batch).list != Expected(start, player, done).list ==>
      FileText(start, player, done + batch) == Ended(FileLines(Expected(start, player, done + batch)))
  {
    hide Parsed, Ended, FileLines;
    var list := Parsed(start).list;
    BatchesJoin(list, done, batch);
    EarlierStays(list, done);
    EarlierStays(AddAll(list, done), batch);
  }

  // ------------------------------------------------------------ the store

  /** Where the worker is: waiting for work, with a batch, with the batch added but not yet
      written, with the lock about to be taken again, or gone. */
  datatype Stage = Idle | Holding | Added(changed: bool) | Wrote | Gone

  /** What can happen to a store: an award, a step of its worker, or a caller looking whether
      it may stop waiting. */
  datatype Move = Awarding(ids: seq<nat>, now: int) | Working | Waiting

  /** The awards of a schedule, in order. */
  function AwardsOf(schedule: seq<Move>): seq<Entry> {
    if schedule == [] then []
    else
      var last := schedule[|schedule| - 1];
      AwardsOf(schedule[..|schedule| - 1]) + if last.Awarding? then Stamped(last.ids, last.now) else []
  }

  lemma AwardsOfMore(schedule: seq<Move>, k: nat)
    requires k < |schedule|
    ensures AwardsOf(schedule[..k + 1]) ==
      AwardsOf(schedule[..k]) + if schedule[k].Awarding? then Stamped(schedule[k].ids, schedule[k].now) else []
  {
    assert schedule[..k + 1][..k] == schedule[..k];
  }

  // ------------------------------------------------------------ how far the worker is

  datatype Phase = Resting | Taken | Merged | Filed | Left

  /** How many awards there are, how many of them the file holds, and how many it will hold once
      the batch is written. */
  datatype Progress = Progress(phase: Phase, held: nat, taken: nat, awarded: nat) {
    predicate Fits() {
      held <= taken <= awarded && (phase == Resting || phase == Filed ==> taken == held)
    }

    /** Nothing is left to do, so that a wait returns. */
    predicate Done() {
      phase == Resting && held == awarded
    }

    /** One move: an award counts at once, the worker goes round while there is something to do. */
    function Next(move: Move): Progress {
      match move
      case Awarding(ids, _) => this.(awarded := awarded + |ids|)
      case Waiting => this
      case Working =>
        match phase
        case Resting => if held == awarded then this else this.(phase := Taken, taken := awarded)
        case Taken => this.(phase := Merged)
        case Merged => this.(phase := Filed, held := taken)
        case Filed => this.(phase := Resting)
        case Left => this
    }

    /** The worker's steps until everything awarded so far is in the file and a wait returns. */
    function Steps(): nat {
      match phase
      case Resting => if held == awarded then 0 else 4
      case Taken => 3 + if taken == awarded then 0 else 4
      case Merged => 2 + if taken == awarded then 0 else 4
      case Filed => 1 + if taken == awarded then 0 else 4
      case Left => 0
    }
  }

  function Through(p: Progress, moves: seq<Move>): Progress {
    if moves == [] then p else Through(p, moves[..|moves| - 1]).Next(moves[|moves| - 1])
  }

  function Workings(moves: seq<Move>): nat {
    if moves == [] then 0 else Workings(moves[..|moves| - 1]) + if moves[|moves| - 1].Working? then 1 else 0
  }

  lemma ThroughNone(p: Progress)
    ensures Through(p, []) == p
  {
  }

  lemma ThroughMore(p: Progress, moves: seq<Move>, k: nat)
    requires k < |moves|
    ensures Through(p, moves[..k + 1]) == Through(p, moves[..k]).Next(moves[k])
  {
    assert moves[..k + 1][..k] == moves[..k];
  }

  /** Without another award every step brings the worker nearer, and nothing else does. */
  lemma {:induction false} StepsLeft(p: Progress, moves: seq<Move>)
    requires p.Fits() && p.phase != Left && forall k | 0 <= k < |moves| :: !moves[k].Awarding?
    ensures var after := Through(p, moves);
      && after.Fits() && after.phase != Left && after.awarded == p.awarded
      && after.Steps() == if Workings(moves) <= p.Steps() then p.Steps() - Workings(moves) else 0
  {
    if moves != [] {
      StepsLeft(p, moves[..|moves| - 1]);
    }
  }

  /** However the schedule began: once the worker made as many steps as it has left, without an
      award between, every award made is in the file and a wait returns; and not before. */
  lemma Drained(p: Progress, moves: seq<Move>)
    requires p.Fits() && p.phase != Left && forall k | 0 <= k < |moves| :: !moves[k].Awarding?
    ensures Through(p, moves).Done() <==> Workings(moves) >= p.Steps()
    ensures Through(p, moves).Done() ==> Through(p, moves).held == p.awarded
  {
    StepsLeft(p, moves);
    hide Through, Workings;
  }

  /** What a move leaves in the file, and whether a wait returned at it. */
  ghost predicate FileAt(start: string, player: string, awards: seq<Entry>, p: Progress, move: Move, file: string,
      back: bool) {
    && p.Fits() && p.awarded == |awards| && file == FileText(start, player, awards[..p.held])
    && (back <==> move.Waiting? && p.Done())
  }

  class AchievementStore {
    var disk: string
    var pending: seq<Entry>
    var busy: bool
    var stopping: bool
    var stage: Stage
    var batch: seq<Entry>
    var loaded: bool
    var unlocked: Unlocks
    const player: string
    ghost const start: string
    ghost var awarded: seq<Entry>
    ghost var written: seq<Entry>

    /** Every award is written, in the batch or pending, in order; the file and the worker's
        list hold exactly the awards they should. */
    ghost predicate Valid()
      reads this
    {
      && awarded == written + batch + pending
      && busy == (stage != Idle && stage != Gone)
      && disk == FileText(start, player, written)
      && (batch != [] <==> stage == Holding || stage.Added?)
      && (!loaded ==> written == [] && (stage == Idle || stage == Holding || stage == Gone))
      && (loaded ==> unlocked == Expected(start, player, if stage.Added? then written + batch else written))
      && (stage.Added? ==> (stage.changed <==> unlocked.list != Expected(start, player, written).list))
      && (stage == Gone ==> pending == [] && stopping)
    }

    constructor (file: string, name: string)
      ensures Valid() && disk == start == file && player == name
      ensures stage == Idle && pending == [] && awarded == [] && !stopping
    {
      disk, start, player := file, file, name;
      pending, batch, awarded, written := [], [], [], [];
      busy, stopping, loaded, stage := false, false, false, Idle;
      unlocked := Unlocks("", []);
      new;
      NothingNew(file, name);
    }

    /** award: all ids of a call are queued together. */
    method Award(ids: seq<nat>, now: int)
      requires Valid() && stage != Gone
      modifies `pending, `awarded
      ensures Valid()
      ensures awarded == old(awarded) + Stamped(ids, now) && pending == old(pending) + Stamped(ids, now)
    {
      hide Expected, FileText, Stamped;
      pending := pending + Stamped(ids, now);
      awarded := awarded + Stamped(ids, now);
    }

    /** The worker wakes: it takes all that is pending, or leaves when told to stop. */
    method Take()
      requires Valid() && stage == Idle && (stopping || pending != [])
      modifies `pending, `batch, `busy, `stage
      ensures Valid()
      ensures if old(pending) == [] then stage == Gone && pending == []
              else stage == Holding && batch == old(pending) && pending == []
    {
      hide Expected, FileText;
      if pending == [] {
        stage := Gone;
      } else {
        batch, pending, busy, stage := pending, [], true, Holding;
      }
    }

    /** Outside the lock: the file is read once, then the batch is added to the list. */
    method Merge()
      requires Valid() && stage == Holding
      modifies `loaded, `unlocked, `stage
      ensures Valid() && stage.Added?
    {
      hide AddAll, Expected, FileText, Parsed, Ended, FileLines, Stamped;
      if !loaded {
        unlocked := ParseUnlocked(disk);
        loaded := true;
        AtStart(start, player);
      }
      ExpectedAgain(start, player, written);
      if unlocked.player == "" {
        unlocked := unlocked.(player := player);
      }
      assert unlocked == Expected(start, player, written);
      var added := false;
      ghost var before := unlocked;
      NoneAdded(unlocked.list);
      for k := 0 to |batch|
        invariant loaded && unlocked == before.(list := AddAll(before.list, batch[..k]))
        invariant added <==> unlocked.list != before.list
        invariant before.list <= unlocked.list
      {
        var list, news := AddUnlocked(unlocked.list, [batch[k].id], batch[k].when);
        OneStamped(batch[k]);
        BatchesJoin(before.list, batch[..k], [batch[k]]);
        assert batch[..k + 1] == batch[..k] + [batch[k]];
        added := added || news != [];
        unlocked := unlocked.(list := list);
      }
      assert batch[..|batch|] == batch;
      NextFile(start, player, written, batch);
      assert unlocked == Expected(start, player, written + batch);
      stage := Added(added);
    }

    /** Still outside the lock: the file is written when an award was new. */
    method Write()
      requires Valid() && stage.Added?
      modifies `disk, `stage, `batch, `written
      ensures Valid() && stage == Wrote
      ensures written == old(written) + old(batch)
      ensures old(stage).changed || disk == old(disk)
    {
      hide Expected, FileText, AddAll, Parsed, Ended, FileLines, Stamped;
      NextFile(start, player, written, batch);
      assert written + batch + [] + pending == written + batch + pending;
      if stage.changed {
        disk := FormatUnlocked(unlocked);
      }
      written, batch, stage := written + batch, [], Wrote;
    }

    /** Back under the lock. */
    method Finish()
      requires Valid() && stage == Wrote
      modifies `busy, `stage
      ensures Valid() && stage == Idle
    {
      busy, stage := false, Idle;
    }

    /** wait: it returns only when every award made before is in the file. */
    method MayReturn() returns (ready: bool)
      requires Valid()
      ensures ready <==> pending == [] && !busy
      ensures ready ==> written == awarded && disk == FileText(start, player, awarded)
    {
      ready := pending == [] && !busy;
    }

    /** One step of the worker, from wherever it is. */
    method Step()
      requires Valid() && stage != Gone && (stage == Idle ==> stopping || pending != [])
      modifies `disk, `pending, `batch, `busy, `stage, `loaded, `unlocked, `written
      ensures Valid() && stopping == old(stopping) && awarded == old(awarded)
      ensures Remaining() < old(Remaining())
      ensures !stopping ==> Now() == old(Now()).Next(Working) && stage != Gone
    {
      hide Expected, FileText;
      if stage == Idle {
        Take();
      } else if stage == Holding {
        Merge();
      } else if stage.Added? {
        Write();
      } else {
        Finish();
      }
    }

    /** Steps the worker still has to make. */
    ghost function Remaining(): nat
      reads this
    {
      (if pending == [] then 0 else 5) +
      match stage
      case Idle => 1
      case Holding => 4
      case Added(_) => 3
      case Wrote => 2
      case Gone => 0
    }

    /** How far the worker is. */
    ghost function Now(): Progress
      reads this
    {
      Progress(match stage case Idle => Resting case Holding => Taken case Added(_) => Merged case Wrote => Filed
                 case Gone => Left,
               |written|, |written| + |batch|, |awarded|)
    }

    /** One move of a schedule. The worker does not step while it has nothing to do. */
    method Make(move: Move) returns (back: bool)
      requires Valid() && !stopping && stage != Gone
      modifies this
      ensures Valid() && !stopping && stage != Gone
      ensures awarded == old(awarded) + if move.Awarding? then Stamped(move.ids, move.now) else []
      ensures Now() == old(Now()).Next(move) && Now().Fits()
      ensures back <==> move.Waiting? && Now().Done()
    {
      hide Expected, FileText, Stamped;
      back := false;
      match move
      case Awarding(ids, now) =>
        Award(ids, now);
      case Working =>
        if stage != Idle || pending != [] {
          Step();
        }
      case Waiting =>
        back := MayReturn();
    }

    /** Under every schedule of awards, worker steps and waits the file always holds exactly the
        awards up to where the worker is, in the order they came, and a wait returns exactly when
        these are all. */
    method Serve(schedule: seq<Move>) returns (files: seq<string>, backs: seq<bool>)
      requires Valid() && !stopping && stage != Gone
      modifies this
      ensures Valid() && awarded == old(awarded) + AwardsOf(schedule)
      ensures |files| == |backs| == |schedule| && Now() == Through(old(Now()), schedule)
      ensures forall i | 0 <= i < |schedule| ::
        FileAt(start, player, old(awarded) + AwardsOf(schedule[..i + 1]), Through(old(Now()), schedule[..i + 1]),
               schedule[i], files[i], backs[i])
    {
      hide Expected, FileText, Stamped, AwardsOf, Through, FileAt;
      files, backs := [], [];
      AwardsOfNone();
      ThroughNone(Now());
      assert schedule[..0] == [];
      for k := 0 to |schedule|
        invariant Valid() && !stopping && stage != Gone && awarded == old(awarded) + AwardsOf(schedule[..k])
        invariant |files| == |backs| == k && Now() == Through(old(Now()), schedule[..k])
        invariant forall i | 0 <= i < k ::
          FileAt(start, player, old(awarded) + AwardsOf(schedule[..i + 1]), Through(old(Now()), schedule[..i + 1]),
                 schedule[i], files[i], backs[i])
      {
        var back := Make(schedule[k]);
        AwardsOfMore(schedule, k);
        ThroughMore(old(Now()), schedule, k);
        HeldNow(schedule[k], back);
        files, backs := files + [disk], backs + [back];
      }
      assert schedule[..|schedule|] == schedule;
    }

    lemma HeldNow(move: Move, back: bool)
      requires Valid() && Now().Fits() && (back <==> move.Waiting? && Now().Done())
      ensures FileAt(start, player, awarded, Now(), move, disk, back)
    {
      hide Expected, FileText;
      assert awarded[..|written|] == written;
    }

    /** The destructor: told to stop, the worker first writes all that is pending. */
    method Destroy()
      requires Valid()
      modifies this
      ensures Valid() && stage == Gone && awarded == old(awarded)
      ensures written == awarded && disk == FileText(start, player, awarded)
    {
      stopping := true;
      while stage != Gone
        invariant Valid() && stopping && awarded == old(awarded)
        decreases Remaining()
      {
        Step();
      }
    }
  }

  lemma AtStart(start: string, player: string)
    ensures FileText(start, player, []) == start
    ensures Expected(start, player, []).list == Parsed(start).list
    ensures Expected(start, player, []).player == if Parsed(start).player == "" then player else Parsed(start).player
  {
  }

  lemma ExpectedAgain(start: string, player: string, awards: seq<Entry>)
    ensures Expected(start, player, awards).player == "" ==> player == ""
  {
  }

  lemma NoneAdded(list: seq<Entry>)
    ensures AddAll(list, []) == list
  {
  }

  lemma OneStamped(e: Entry)
    ensures Stamped([e.id], e.when) == [e]
  {
  }

  lemma AwardsOfNone()
    ensures AwardsOf([]) == []
  {
  }
}
