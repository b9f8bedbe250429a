/** Bounded jump tables: the compare that bounds the index, the labels the emulation finds,
    and why the computed CTR is the label of the index at the compare. */
module Tables {
  import opened Options
  import opened Bits
  import opened PowerPC
  import opened JumpTables
  import opened Dispatch

  // ------------------------------------------------------------ the bound

  /** branch_target: where an unlinked b or bc goes. */
  function BranchTarget(address: int, word: Word): Option<Word> {
    if Opcode(word) == 18 && word % 2 == 0 then
      var offset := word % 0x0400_0000 / 4 * 4;
      var signed := if offset >= 0x0200_0000 then offset - 0x0400_0000 else offset;
      Some(Wrap(if word / 2 % 2 == 1 then signed else address + signed))
    else if Opcode(word) == 16 && word % 2 == 0 then
      var offset := S16(Immediate(word) / 4 * 4);
      Some(Wrap(if word / 2 % 2 == 1 then offset else address + offset))
    else None
  }

  /** It is where the instruction goes when it is taken. */
  lemma BranchTargetIs(address: int, word: Word)
    ensures BranchTarget(address, word) == Destination(word, address)
  {
    if Opcode(word) == 18 && word % 2 == 0 {
      FarTargetIs(address, word);
    } else if Opcode(word) == 16 && word % 2 == 0 {
      NearTargetIs(address, word);
    }
  }

  lemma FarTargetIs(address: int, word: Word)
    requires Opcode(word) == 18 && word % 2 == 0
    ensures JumpOf(word).Some? && !JumpOf(word).value.link
    ensures BranchTarget(address, word) == Some(NextOf(JumpOf(word).value, address))
  {
    hide Wrap, S16;
    assert word % 0x0400_0000 / 4 == word / 4 % 0x0100_0000;
  }

  lemma NearTargetIs(address: int, word: Word)
    requires Opcode(word) == 16 && word % 2 == 0
    ensures JumpOf(word).Some? && !JumpOf(word).value.link
    ensures BranchTarget(address, word) == Some(NextOf(JumpOf(word).value, address))
  {
    hide Wrap;
    assert Immediate(word) / 4 == word / 4 % 0x4000;
  }

  /** Every aligned displacement in range, from the branch or from zero. */
  lemma FarTarget(address: int, offset: int, absolute: bool)
    requires -0x0200_0000 <= offset < 0x0200_0000 && offset % 4 == 0
    ensures BranchTarget(address, FarWord(offset, absolute, false)) ==
      Some(Wrap(if absolute then offset else address + offset))
    ensures BranchTarget(address, FarWord(offset, absolute, true)) == None
  {
    hide BranchTarget, FarWord, JumpOf, Wrap;
    FarJump(offset, absolute, false);
    FarJump(offset, absolute, true);
    BranchTargetIs(address, FarWord(offset, absolute, false));
    BranchTargetIs(address, FarWord(offset, absolute, true));
  }

  lemma NearTarget(address: int, bo: nat, bi: nat, offset: int, absolute: bool)
    requires bo < 32 && bi < 32 && -0x8000 <= offset < 0x8000 && offset % 4 == 0
    ensures BranchTarget(address, NearWord(bo, bi, offset, absolute, false)) ==
      Some(Wrap(if absolute then offset else address + offset))
    ensures BranchTarget(address, NearWord(bo, bi, offset, absolute, true)) == None
  {
    hide BranchTarget, NearWord, JumpOf, Wrap;
    NearJump(bo, bi, offset, absolute, false);
    NearJump(bo, bi, offset, absolute, true);
    BranchTargetIs(address, NearWord(bo, bi, offset, absolute, false));
    BranchTargetIs(address, NearWord(bo, bi, offset, absolute, true));
  }

  datatype Bound = Bound(compare: int, branch: int, register: nat, limit: nat, fallback: Option<Word>)

  /** bgt crN or bgtlr crN: bc or bclr, not linked, BO 12, BI the GT bit. */
  predicate IsBgt(word: Word) {
    && ((Opcode(word) == 16 && word % 4 == 0) || (Opcode(word) == 19 && Extended(word) == 16 && word % 2 == 0))
    && FieldD(word) == IF_TRUE && FieldA(word) % 4 == GT
  }

  function FieldOf(word: Word): (f: nat) ensures f < 8 { FieldA(word) / 4 }

  /** From one address up to another nothing branches and nothing writes the condition field. */
  predicate KeepsField(image: Image, start: int, end: int, field: nat)
    requires Loaded(image)
    decreases end - start
  {
    start < end ==>
      && InImage(start) && !IsControlFlow(WordAt(image, start))
      && Effects(WordAt(image, start)).Some? && field !in Effects(WordAt(image, start)).value.fields
      && KeepsField(image, start + 4, end, field)
  }

  /** The compare whose result a branch on the field sees. */
  predicate Dominates(image: Image, compare: int, branch: int, field: nat)
    requires Loaded(image)
  {
    && branch - 4 * MAX_BLOCK < compare < branch && (branch - compare) % 4 == 0
    && InImage(compare) && IsCmplwi(WordAt(image, compare), field)
    && KeepsField(image, compare + 4, branch, field)
  }

  /** What makes a compare and a branch the bound of a bctr. */
  predicate Bounds(image: Image, bctr: int, b: Bound)
    requires Loaded(image)
  {
    && bctr - 4 * MAX_BLOCK < b.branch < bctr && (bctr - b.branch) % 4 == 0
    && InImage(b.branch) && IsBgt(WordAt(image, b.branch)) && PlainCode(image, b.branch + 4, bctr, {})
    && Dominates(image, b.compare, b.branch, FieldOf(WordAt(image, b.branch)))
    && b.register == FieldA(WordAt(image, b.compare)) && b.limit == Immediate(WordAt(image, b.compare))
    && b.fallback == if Opcode(WordAt(image, b.branch)) == 16 then BranchTarget(b.branch, WordAt(image, b.branch))
      else None
  }

  lemma {:induction false} PlainAt(image: Image, start: int, end: int, targets: set<int>, at: int)
    requires Loaded(image) && PlainCode(image, start, end, targets) && start <= at < end && (at - start) % 4 == 0
    ensures InImage(at) && !IsControlFlow(WordAt(image, at))
    decreases at - start
  {
    if start < at {
      PlainAt(image, start + 4, end, targets, at);
    }
  }

  lemma {:induction false} KeepsAt(image: Image, start: int, end: int, field: nat, at: int)
    requires Loaded(image) && KeepsField(image, start, end, field) && start <= at < end && (at - start) % 4 == 0
    ensures InImage(at) && !IsControlFlow(WordAt(image, at))
    ensures Effects(WordAt(image, at)).Some? && field !in Effects(WordAt(image, at)).value.fields
    decreases at - start
  {
    hide Effects, IsControlFlow;
    if start < at {
      KeepsAt(image, start + 4, end, field, at);
    }
  }

  lemma CmplwiWrites(word: Word, field: nat)
    requires IsCmplwi(word, field)
    ensures Effects(word) == Some(Written({}, {field}))
  {
    assert FieldD(word) / 4 == field;
  }

  lemma OneCompare(image: Image, one: int, other: int, branch: int, field: nat)
    requires Loaded(image) && Dominates(image, one, branch, field) && Dominates(image, other, branch, field)
    ensures one == other
  {
    hide Effects, IsControlFlow, IsCmplwi, KeepsField;
    CmplwiWrites(WordAt(image, one), field);
    CmplwiWrites(WordAt(image, other), field);
    if one < other {
      KeepsAt(image, one + 4, branch, field, other);
    } else if other < one {
      KeepsAt(image, other + 4, branch, field, one);
    }
  }

  lemma BlocksCompare(image: Image, at: int, compare: int, branch: int, field: nat)
    requires Loaded(image) && InImage(at) && at < branch && (branch - at) % 4 == 0
    requires !IsCmplwi(WordAt(image, at), field)
    requires var word := WordAt(image, at);
      IsControlFlow(word) || Effects(word).None? || field in Effects(word).value.fields
    requires Dominates(image, compare, branch, field)
    ensures at < compare
  {
    hide Effects, IsControlFlow, IsCmplwi, KeepsField;
    if compare < at {
      KeepsAt(image, compare + 4, branch, field, at);
    }
  }

  lemma KeepsBack(image: Image, at: int, branch: int, field: nat)
    requires Loaded(image) && InImage(at) && KeepsField(image, at + 4, branch, field)
    requires var word := WordAt(image, at);
      !(IsControlFlow(word) || Effects(word).None? || field in Effects(word).value.fields)
    ensures KeepsField(image, at, branch, field)
  {
    hide Effects, IsControlFlow;
  }

  /** The inner loop of find_bound: the cmplwi that dominates the branch, or none does. */
  method FindCompare(image: Image, branch: int, field: nat) returns (r: Option<int>)
    requires Loaded(image) && TEXT_BASE - 4 * MAX_BLOCK <= branch && branch + 4 <= TEXT_END
    ensures r.Some? ==> InImage(r.value) && Dominates(image, r.value, branch, field)
    ensures r.None? ==> forall compare :: !Dominates(image, compare, branch, field)
  {
    hide Effects, IsControlFlow, IsCmplwi, KeepsField;
    var at := branch - 4;
    KeepsNothing(image, branch, field);
    while at > branch - 4 * MAX_BLOCK
      invariant branch - 4 * MAX_BLOCK <= at < branch && (branch - at) % 4 == 0
      invariant KeepsField(image, at + 4, branch, field)
      invariant forall compare | Dominates(image, compare, branch, field) :: compare <= at
      decreases at
    {
      var word := WordAt(image, at);
      if IsCmplwi(word, field) {
        return Some(at);
      }
      var effects := Effects(word);
      if IsControlFlow(word) || effects.None? || field in effects.value.fields {
        forall compare | Dominates(image, compare, branch, field) ensures false {
          BlocksCompare(image, at, compare, branch, field);
        }
        return None;
      }
      KeepsBack(image, at, branch, field);
      at := at - 4;
    }
    return None;
  }

  lemma KeepsNothing(image: Image, at: int, field: nat)
    requires Loaded(image)
    ensures KeepsField(image, at, at, field)
  {
  }

  lemma OneBranch(image: Image, bctr: int, at: int, b: Bound)
    requires Loaded(image) && InImage(at) && at < bctr && (bctr - at) % 4 == 0
    requires IsControlFlow(WordAt(image, at)) && PlainCode(image, at + 4, bctr, {}) && Bounds(image, bctr, b)
    ensures b.branch == at
  {
    hide PlainCode, Dominates, BranchTarget, Effects;
    if b.branch < at {
      PlainAt(image, b.branch + 4, bctr, {}, at);
    } else if at < b.branch {
      PlainAt(image, at + 4, bctr, {}, b.branch);
    }
  }

  /** A bctr has at most one bound. */
  lemma OneBound(image: Image, bctr: int, one: Bound, other: Bound)
    requires Loaded(image) && Bounds(image, bctr, one) && Bounds(image, bctr, other)
    ensures one == other
  {
    hide PlainCode, Dominates, BranchTarget, Effects, IsCmplwi;
    OneBranch(image, bctr, one.branch, other);
    OneCompare(image, one.compare, other.compare, one.branch, FieldOf(WordAt(image, one.branch)));
  }

  /** find_bound: the bound of a bctr, exactly when it has one. */
  method FindBound(image: Image, bctr: int) returns (r: Result<Bound>)
    requires Loaded(image) && TEXT_BASE <= bctr && bctr + 4 <= TEXT_END
    ensures r.Accepted? ==> forall b :: Bounds(image, bctr, b) <==> b == r.value
    ensures r.Rejected? ==> forall b :: !Bounds(image, bctr, b)
  {
    hide PlainCode, Dominates, Effects, BranchTarget, IsCmplwi, IsControlFlow;
    var branch := bctr - 4;
    PlainNothing(image, bctr, {});
    while branch > bctr - 4 * MAX_BLOCK
      invariant bctr - 4 * MAX_BLOCK <= branch < bctr && (bctr - branch) % 4 == 0
      invariant PlainCode(image, branch + 4, bctr, {})
      invariant forall b | Bounds(image, bctr, b) :: b.branch <= branch
      decreases branch
    {
      var word := WordAt(image, branch);
      if IsControlFlow(word) {
        forall b | Bounds(image, bctr, b) ensures b.branch == branch {
          OneBranch(image, bctr, branch, b);
        }
        if !IsBgt(word) {
          return Rejected;
        }
        var compare := FindCompare(image, branch, FieldOf(word));
        if compare.None? {
          return Rejected;
        }
        var candidate := WordAt(image, compare.value);
        var found := Bound(compare.value, branch, FieldA(candidate), Immediate(candidate),
                           if Opcode(word) == 16 then BranchTarget(branch, word) else None);
        assert Bounds(image, bctr, found);
        forall b | Bounds(image, bctr, b) ensures b == found {
          OneBound(image, bctr, b, found);
        }
        return Accepted(found);
      }
      forall b | Bounds(image, bctr, b) ensures b.branch < branch {
        BranchHere(image, bctr, b, branch);
      }
      PlainBack(image, branch, bctr, {});
      branch := branch - 4;
    }
    return Rejected;
  }

  lemma BranchHere(image: Image, bctr: int, b: Bound, branch: int)
    requires Loaded(image) && Bounds(image, bctr, b) && InImage(branch) && !IsControlFlow(WordAt(image, branch))
    ensures b.branch != branch
  {
    hide PlainCode, Dominates, BranchTarget, Effects;
  }

  // ------------------------------------------------------------ what the bound means

  lemma FirstStep(image: Image, start: int, end: int, st: seq<State>)
    requires Straight(image, start, end, st) && start < end && !IsControlFlow(WordAt(image, start))
    ensures |st| >= 2 && ValidState(st[0]) && ValidState(st[1]) && Step(image, WordAt(image, start), st[0], st[1])
  {
    hide Step, IsControlFlow, WordAt;
    assert Falls(image, start + 4 * 0, st[0], st[0 + 1]);
  }

  /** mcrfs to the field, which find_bound takes to leave it. */
  predicate MissesField(word: Word, field: nat) {
    FieldMissed(word) && FieldD(word) / 4 == field
  }

  /** No mcrfs to the field from one address up to another. */
  ghost predicate NoneMisses(image: Image, start: int, end: int, field: nat)
    requires Loaded(image)
  {
    forall at | start <= at < end && (at - start) % 4 == 0 && InImage(at) :: !MissesField(WordAt(image, at), field)
  }

  lemma {:induction false} FieldKept(image: Image, start: int, end: int, field: nat, st: seq<State>)
    requires Straight(image, start, end, st) && KeepsField(image, start, end, field) && field < 8
    requires NoneMisses(image, start, end, field)
    ensures Last(st).cr[field] == st[0].cr[field]
    decreases end - start
  {
    hide *;
    StraightStates(image, start, end, st);
    LastIs(st);
    if start < end {
      KeepsAt(image, start, end, field, start);
      FirstStep(image, start, end, st);
      NoneMissesAt(image, start, end, field);
      StepKeepsField(image, WordAt(image, start), field, st[0], st[1]);
      StraightTail(image, start, end, st, 1);
      KeepsRest(image, start, end, field);
      FieldKept(image, start + 4, end, field, st[1..]);
      assert st[1..][0] == st[1];
    } else {
      assert |st| == 1;
    }
  }

  lemma NoneMissesAt(image: Image, start: int, end: int, field: nat)
    requires Loaded(image) && start < end && InImage(start) && NoneMisses(image, start, end, field)
    ensures !MissesField(WordAt(image, start), field) && NoneMisses(image, start + 4, end, field)
  {
    hide MissesField;
    forall at | start + 4 <= at < end && (at - (start + 4)) % 4 == 0 && InImage(at)
      ensures !MissesField(WordAt(image, at), field)
    {
      assert (at - start) % 4 == 0;
    }
  }

  lemma LastIs(st: seq<State>)
    requires st != []
    ensures Last(st) == st[|st| - 1]
  {
  }

  lemma KeepsRest(image: Image, start: int, end: int, field: nat)
    requires Loaded(image) && KeepsField(image, start, end, field) && start < end
    ensures KeepsField(image, start + 4, end, field)
  {
    hide Effects, IsControlFlow;
  }

  lemma StepKeepsField(image: Image, word: Word, field: nat, s: State, s': State)
    requires Loaded(image) && ValidState(s) && ValidState(s') && Step(image, word, s, s') && field < 8
    requires Effects(word).Some? && field !in Effects(word).value.fields && !MissesField(word, field)
    ensures s'.cr[field] == s.cr[field]
  {
    hide Effects, Step, Decode, FieldMissed;
    if FieldMissed(word) {
      MissedStep(image, word, s, s');
    } else {
      StepTouches(image, word, s, s', Effects(word).value);
    }
  }

  lemma MissedStep(image: Image, word: Word, s: State, s': State)
    requires Loaded(image) && ValidState(s) && Step(image, word, s, s') && FieldMissed(word)
    ensures ValidState(s') && FieldD(word) / 4 < 8
    ensures forall f | 0 <= f < 8 && f != FieldD(word) / 4 :: s'.cr[f] == s.cr[f]
  {
    hide Effects, Decode, FieldMissed;
    EffectsAre(word);
  }

  lemma CompareIsPlain(word: Word, field: nat)
    requires IsCmplwi(word, field)
    ensures !IsControlFlow(word) && field < 8
  {
  }

  lemma TakesOnGt(word: Word, s: State)
    requires IsBgt(word) && ValidState(s)
    ensures OnCondition(word) && (Takes(word, s) <==> s.cr[FieldOf(word)].gt)
  {
  }

  /** The branch is taken exactly when the index was past the limit when it was compared. */
  lemma BoundHolds(image: Image, bctr: int, b: Bound, st: seq<State>)
    requires Loaded(image) && Bounds(image, bctr, b) && Straight(image, b.compare, b.branch, st)
    requires NoneMisses(image, b.compare + 4, b.branch, FieldOf(WordAt(image, b.branch)))
    ensures Takes(WordAt(image, b.branch), Last(st)) <==> st[0].gpr[b.register] > b.limit
  {
    hide Effects, Step, IsBgt, BranchTarget, FieldOf, PlainCode, Straight, WordAt, KeepsField, IsCmplwi, Takes;
    var field := FieldOf(WordAt(image, b.branch));
    StraightStates(image, b.compare, b.branch, st);
    CompareIsPlain(WordAt(image, b.compare), field);
    FirstStep(image, b.compare, b.branch, st);
    StraightTail(image, b.compare, b.branch, st, 1);
    FieldKept(image, b.compare + 4, b.branch, field, st[1..]);
    CompareSets(image, WordAt(image, b.compare), field, st[0], st[1]);
    assert st[1..][0] == st[1];
    TakesOnGt(WordAt(image, b.branch), Last(st));
  }

  lemma CompareSets(image: Image, word: Word, field: nat, s: State, s': State)
    requires Loaded(image) && ValidState(s) && ValidState(s') && Step(image, word, s, s') && IsCmplwi(word, field)
    ensures field < 8 && (s'.cr[field].gt <==> s.gpr[FieldA(word)] > Immediate(word)) && s'.gpr == s.gpr
  {
    hide DecodeX, FieldD, FieldA, Immediate;
    assert word / 0x0080_0000 % 8 == FieldD(word) / 4 by {
      FieldOfCompare(word);
    }
  }

  lemma FieldOfCompare(word: Word)
    ensures word / 0x0080_0000 % 8 == FieldD(word) / 4
  {
    var x := word / 0x20_0000;
    assert word / 0x0080_0000 == x / 4;
    QuarterOf(x);
  }

  lemma QuarterOf(x: nat)
    ensures x / 4 % 8 == x % 32 / 4
  {
    var high, low := x / 32, x % 32;
    assert x == 32 * high + low && x / 4 == 8 * high + low / 4;
  }

  // ------------------------------------------------------------ emulation of one index

  /** Every straight run from the compare, with that index, is in a state the registers describe. */
  ghost predicate Knows(image: Image, b: Bound, address: int, relations: map<nat, int>, index: nat, k: Known) {
    forall st: seq<State> | RunWith(image, b, address, relations, index, st) :: Holds(k, Last(st))
  }

  /** A straight run from the compare where the listed registers are the index plus their offsets. */
  ghost predicate RunWith(image: Image, b: Bound, address: int, relations: map<nat, int>, index: nat, st: seq<State>)
    ensures RunWith(image, b, address, relations, index, st) ==> st != [] && ValidState(Last(st))
  {
    Straight(image, b.compare, address, st) && Relates(relations, b.register, st[0]) && st[0].gpr[b.register] == index
  }

  function Initial(relations: map<nat, int>, index: nat): Known {
    Known(map r | r in relations :: Wrap(index + relations[r]), None)
  }

  lemma KnowsInitially(image: Image, bctr: int, b: Bound, relations: map<nat, int>, index: nat)
    requires Loaded(image) && Bounds(image, bctr, b)
    ensures Knows(image, b, b.compare + 4, relations, index, Initial(relations, index))
  {
    hide Effects, Decode, IsBgt, BranchTarget, FieldOf, PlainCode, KeepsField, Wrap;
    forall st: seq<State> | RunWith(image, b, b.compare + 4, relations, index, st)
      ensures Holds(Initial(relations, index), Last(st))
    {
      assert Falls(image, b.compare + 4 * 0, st[0], st[0 + 1]);
      CompareSets(image, WordAt(image, b.compare), FieldOf(WordAt(image, b.branch)), st[0], st[1]);
    }
  }

  lemma KnowsNext(image: Image, b: Bound, address: int, relations: map<nat, int>, index: nat, k: Known, k': Known)
    requires Loaded(image) && InImage(address) && b.compare < address && Knows(image, b, address, relations, index, k)
    requires (address - b.compare) % 4 == 0
    requires var word := WordAt(image, address);
      if IsControlFlow(word) then k' == k && OnCondition(word) else StepsTo(image, word, k, k')
    ensures Knows(image, b, address + 4, relations, index, k')
  {
    hide Step, Relates, IsControlFlow, WordAt, Straight, StepsTo, Holds, Falls, OnCondition, RunWith;
    forall st: seq<State> | RunWith(image, b, address + 4, relations, index, st)
      ensures Holds(k', Last(st))
    {
      RunShorter(image, b, address, relations, index, st);
      LastFalls(image, b.compare, address, st);
      StraightStates(image, b.compare, address + 4, st);
      HeldOn(image, address, k, k', st[|st| - 2], Last(st));
    }
  }

  lemma RunShorter(image: Image, b: Bound, address: int, relations: map<nat, int>, index: nat, st: seq<State>)
    requires RunWith(image, b, address + 4, relations, index, st) && b.compare < address
      && (address - b.compare) % 4 == 0
    ensures Straight(image, b.compare, address + 4, st) && |st| >= 2 && ValidState(st[|st| - 2])
    ensures RunWith(image, b, address, relations, index, st[..|st| - 1]) && Last(st[..|st| - 1]) == st[|st| - 2]
  {
    hide Falls, Relates;
    StraightHead(image, b.compare, address + 4, st, |st| - 2);
    assert st[..|st| - 1][0] == st[0];
  }

  /** What the registers describe, across one step. */
  lemma HeldOn(image: Image, address: int, k: Known, k': Known, s: State, s': State)
    requires Loaded(image) && InImage(address) && ValidState(s) && ValidState(s') && Holds(k, s)
      && Falls(image, address, s, s')
    requires if IsControlFlow(WordAt(image, address)) then k' == k && OnCondition(WordAt(image, address))
             else StepsTo(image, WordAt(image, address), k, k')
    ensures Holds(k', s')
  {
    hide Step, IsControlFlow, WordAt, OnCondition, Holds;
  }

  lemma LastFalls(image: Image, begin: int, address: int, st: seq<State>)
    requires Straight(image, begin, address + 4, st) && begin <= address
    ensures |st| >= 2 && Falls(image, address, st[|st| - 2], Last(st))
    ensures begin + 4 * (|st| - 2) == address
  {
    var last := |st| - 2;
    assert Falls(image, begin + 4 * last, st[last], st[last + 1]);
  }

  lemma OnlyTheBranch(image: Image, bctr: int, b: Bound, address: int)
    requires Loaded(image) && Bounds(image, bctr, b) && b.compare < address < bctr && (bctr - address) % 4 == 0
    ensures InImage(address)
    ensures IsControlFlow(WordAt(image, address)) <==> address == b.branch
    ensures address == b.branch ==> OnCondition(WordAt(image, address))
  {
    hide Effects, PlainCode, KeepsField, BranchTarget;
    if address < b.branch {
      KeepsAt(image, b.compare + 4, b.branch, FieldOf(WordAt(image, b.branch)), address);
    } else if b.branch < address {
      PlainAt(image, b.branch + 4, bctr, {}, address);
    }
  }

  /** execute from one address up to another, stepping over the branch. */
  function EmulatedFrom(image: Image, branch: int, address: int, bctr: int, k: Known): Result<Known>
    requires Loaded(image)
    requires address < bctr ==> InImage(address) && InImage(bctr)
    decreases bctr - address
  {
    if address >= bctr then Accepted(k)
    else if address == branch then EmulatedFrom(image, branch, address + 4, bctr, k)
    else
      match Executed(image, WordAt(image, address), k)
      case Rejected => Rejected
      case Accepted(next) => EmulatedFrom(image, branch, address + 4, bctr, next)
  }

  function Emulated(image: Image, bctr: int, b: Bound, relations: map<nat, int>, index: nat): Result<Known>
    requires Loaded(image) && InImage(bctr) && Bounds(image, bctr, b)
  {
    BoundsSpan(image, bctr, b);
    EmulatedFrom(image, b.branch, b.compare + 4, bctr, Initial(relations, index))
  }

  /** The word is a move to CTR that execute does not see. */
  predicate HiddenMtctr(word: Word) {
    IsMoveToCtr(word) && !IsMtctr(word)
  }

  /** The words between the compare and the bctr are all read as the instructions they are: no
      hidden move to CTR, and no mcrfs to the bound's field before the branch. */
  ghost predicate Clear(image: Image, bctr: int, b: Bound)
    requires Loaded(image) && InImage(b.branch)
  {
    && NoneMisses(image, b.compare + 4, b.branch, FieldOf(WordAt(image, b.branch)))
    && forall at | b.compare < at < bctr && (at - b.compare) % 4 == 0 && InImage(at) :: !HiddenMtctr(WordAt(image, at))
  }

  lemma ClearMisses(image: Image, bctr: int, b: Bound)
    requires Loaded(image) && InImage(b.branch)
    ensures Clear(image, bctr, b) ==>
      NoneMisses(image, b.compare + 4, b.branch, FieldOf(WordAt(image, b.branch)))
  {
    hide NoneMisses;
  }

  lemma ClearAt(image: Image, bctr: int, b: Bound, at: int, k: Known)
    requires Loaded(image) && Bounds(image, bctr, b) && Clear(image, bctr, b)
    requires b.compare < at < bctr && (at - b.compare) % 4 == 0 && InImage(at)
    ensures !CtrMissed(WordAt(image, at), k)
  {
    hide Bounds, NoneMisses, IsMoveToCtr, IsMtctr;
  }

  /** The registers after the dispatch block, for one index. */
  method EmulateIndex(image: Image, bctr: int, b: Bound, relations: map<nat, int>, index: nat)
      returns (r: Result<Known>)
    requires Loaded(image) && bctr + 4 <= TEXT_END && Bounds(image, bctr, b)
    ensures InImage(bctr) && r == Emulated(image, bctr, b, relations, index)
    ensures r.Accepted? && Clear(image, bctr, b) ==> Knows(image, b, bctr, relations, index, r.value)
  {
    hide Bounds, Knows, IsControlFlow, StepsTo, WordAt, Initial, Executed, Clear, CtrMissed;
    ghost var clear := InImage(b.branch) && Clear(image, bctr, b);
    BoundsSpan(image, bctr, b);
    var registers := Initial(relations, index);
    KnowsInitially(image, bctr, b, relations, index);
    var address := b.compare + 4;
    while address < bctr
      invariant b.compare + 4 <= address <= bctr && (bctr - address) % 4 == 0
      invariant clear ==> Knows(image, b, address, relations, index, registers)
      invariant InImage(address) && InImage(bctr)
      invariant EmulatedFrom(image, b.branch, address, bctr, registers) == Emulated(image, bctr, b, relations, index)
      decreases bctr - address
    {
      OnlyTheBranch(image, bctr, b, address);
      var before := registers;
      if address != b.branch {
        var done := Execute(image, WordAt(image, address), registers);
        if done.Rejected? {
          return Rejected;
        }
        registers := done.value;
      }
      if clear {
        ClearAt(image, bctr, b, address, before);
        KnowsNext(image, b, address, relations, index, before, registers);
      }
      address := address + 4;
    }
    return Accepted(registers);
  }

  lemma BoundsSpan(image: Image, bctr: int, b: Bound)
    requires Loaded(image) && Bounds(image, bctr, b)
    ensures b.compare < b.branch < bctr && (b.branch - b.compare) % 4 == 0 && (bctr - b.branch) % 4 == 0
    ensures InImage(b.branch)
    ensures bctr - 8 * MAX_BLOCK < b.compare && InImage(b.compare)
    ensures b.register < 32 && b.limit < 0x1_0000
  {
    hide Effects, PlainCode, KeepsField, BranchTarget, IsBgt, IsCmplwi;
  }

  // ------------------------------------------------------------ the whole table

  datatype Table = Table(base: int, register: nat, fallback: Option<Word>, labels: seq<Word>)

  /** An aligned .text address, inside the function of the bctr when it has one. */
  predicate LabelAllowed(entry: Word, owner: Option<(int, int)>) {
    entry % 4 == 0 && TEXT_BASE <= entry < TEXT_END && (owner.Some? ==> owner.value.0 <= entry < owner.value.1)
  }

  /** The soundness of a table: every run through the block to the bctr, past the branch not
      taken, has an index in bounds, and CTR is the label of that index. */
  ghost predicate Dispatches(image: Image, begin: int, bctr: int, b: Bound, labels: seq<Word>)
    requires Loaded(image) && Bounds(image, bctr, b) && |labels| == b.limit + 1
    requires begin <= b.compare && (b.compare - begin) % 4 == 0
  {
    forall st: seq<State> | Straight(image, begin, bctr, st) ::
      DispatchedTo(image, begin, bctr, b, labels, st)
  }

  ghost predicate DispatchedTo(image: Image, begin: int, bctr: int, b: Bound, labels: seq<Word>, st: seq<State>)
    requires Loaded(image) && Bounds(image, bctr, b) && |labels| == b.limit + 1
    requires begin <= b.compare && (b.compare - begin) % 4 == 0 && Straight(image, begin, bctr, st)
  {
    BoundsSpan(image, bctr, b);
    var index := st[(b.compare - begin) / 4].gpr[b.register];
    index <= b.limit && Last(st).ctr == labels[index]
  }

  /** The branch goes to the fallback on exactly the other indices. */
  ghost predicate BranchTells(image: Image, b: Bound)
    requires Loaded(image) && InImage(b.branch)
  {
    forall st: seq<State> | Straight(image, b.compare, b.branch, st) :: Tells(image, b, st)
  }

  ghost predicate Tells(image: Image, b: Bound, st: seq<State>)
    requires Loaded(image) && InImage(b.branch)
  {
    && b.register < 32 && st != [] && ValidState(st[0]) && ValidState(Last(st))
    && (Takes(WordAt(image, b.branch), Last(st)) <==> st[0].gpr[b.register] > b.limit)
  }

  lemma TellsAll(image: Image, bctr: int, b: Bound)
    requires Loaded(image) && Bounds(image, bctr, b) && InImage(b.branch)
    requires NoneMisses(image, b.compare + 4, b.branch, FieldOf(WordAt(image, b.branch)))
    ensures BranchTells(image, b)
  {
    hide *;
    BoundsSpan(image, bctr, b);
    forall st: seq<State> | Straight(image, b.compare, b.branch, st) ensures Tells(image, b, st) {
      StraightStates(image, b.compare, b.branch, st);
      LastIs(st);
      BoundHolds(image, bctr, b, st);
      TellsIs(image, b, st);
    }
    BranchTellsIs(image, b);
  }

  lemma BranchTellsIs(image: Image, b: Bound)
    requires Loaded(image) && InImage(b.branch)
    ensures BranchTells(image, b) <==>
      forall st: seq<State> | Straight(image, b.compare, b.branch, st) :: Tells(image, b, st)
  {
  }

  lemma TellsIs(image: Image, b: Bound, st: seq<State>)
    requires Loaded(image) && InImage(b.branch) && b.register < 32 && st != []
    requires ValidState(st[0]) && ValidState(Last(st))
    requires Takes(WordAt(image, b.branch), Last(st)) <==> st[0].gpr[b.register] > b.limit
    ensures Tells(image, b, st)
  {
  }

  ghost predicate KnowsAll(image: Image, bctr: int, b: Bound, relations: map<nat, int>, states: seq<Known>) {
    forall index: nat | index < |states| :: Knows(image, b, bctr, relations, index, states[index])
  }

  lemma TableDispatches(image: Image, begin: int, bctr: int, b: Bound, relations: map<nat, int>, states: seq<Known>,
      labels: seq<Word>)
    requires Loaded(image) && Bounds(image, bctr, b) && |labels| == |states| == b.limit + 1
    requires Block(begin, b.compare) && bctr + 4 <= TEXT_END
    requires forall st: seq<State> | Straight(image, begin, b.compare, st) :: Relates(relations, b.register, Last(st))
    requires KnowsAll(image, bctr, b, relations, states)
    requires forall i | 0 <= i < |labels| :: states[i].ctr == Some(labels[i])
    requires NoneMisses(image, b.compare + 4, b.branch, FieldOf(WordAt(image, b.branch)))
    ensures Dispatches(image, begin, bctr, b, labels)
  {
    forall st: seq<State> | Straight(image, begin, bctr, st)
      ensures DispatchedTo(image, begin, bctr, b, labels, st)
    {
      RunDispatches(image, begin, bctr, b, relations, states, labels, st);
    }
  }

  lemma RunDispatches(image: Image, begin: int, bctr: int, b: Bound, relations: map<nat, int>, states: seq<Known>,
      labels: seq<Word>, st: seq<State>)
    requires Loaded(image) && Bounds(image, bctr, b) && |labels| == |states| == b.limit + 1
    requires Block(begin, b.compare) && bctr + 4 <= TEXT_END
    requires forall st: seq<State> | Straight(image, begin, b.compare, st) :: Relates(relations, b.register, Last(st))
    requires KnowsAll(image, bctr, b, relations, states)
    requires forall i | 0 <= i < |labels| :: states[i].ctr == Some(labels[i])
    requires Straight(image, begin, bctr, st)
    requires NoneMisses(image, b.compare + 4, b.branch, FieldOf(WordAt(image, b.branch)))
    ensures DispatchedTo(image, begin, bctr, b, labels, st)
  {
    hide Bounds, Straight, Relates, Knows, WordAt, FieldOf, Holds, Loaded, Block, InImage, Falls, NoneMisses;
    BoundsSpan(image, bctr, b);
    RunParts(image, begin, bctr, b, st);
    var c := (b.compare - begin) / 4;
    var rest := st[c..];
    assert Relates(relations, b.register, st[c]);
    BoundHolds(image, bctr, b, rest[..(b.branch - b.compare) / 4 + 1]);
    BlockSpan(begin, b.compare);
    NotTaken(image, begin, bctr, b, st);
    var index := st[c].gpr[b.register];
    KnowsRun(image, b, bctr, relations, index, states[index], rest);
    HoldsCtr(states[index], Last(rest));
  }

  /** A run that reaches the bctr fell through the branch. */
  lemma NotTaken(image: Image, begin: int, bctr: int, b: Bound, st: seq<State>)
    requires Loaded(image) && Bounds(image, bctr, b) && begin <= b.compare && (b.compare - begin) % 4 == 0
    requires Straight(image, begin, bctr, st) && b.compare < b.branch < bctr && InImage(b.branch)
    requires (b.branch - b.compare) % 4 == 0
    ensures var j := (b.branch - begin) / 4;
      0 <= j < |st| && ValidState(st[j]) && !Takes(WordAt(image, b.branch), st[j])
  {
    hide Effects, PlainCode, Dominates, BranchTarget, Takes, WordAt, Step;
    var j := (b.branch - begin) / 4;
    assert begin + 4 * j == b.branch && j + 1 < |st|;
    assert Falls(image, begin + 4 * j, st[j], st[j + 1]);
    TakesOnGt(WordAt(image, b.branch), st[j]);
    BranchIsControl(WordAt(image, b.branch));
  }

  lemma BranchIsControl(word: Word)
    requires IsBgt(word)
    ensures IsControlFlow(word)
  {
  }

  /** A run through a dispatch block, cut at the compare and at the branch. */
  lemma RunParts(image: Image, begin: int, bctr: int, b: Bound, st: seq<State>)
    requires Loaded(image) && Bounds(image, bctr, b) && Block(begin, b.compare) && bctr + 4 <= TEXT_END
      && Straight(image, begin, bctr, st)
    ensures (forall k | 0 <= k < |st| :: ValidState(st[k])) && begin <= b.compare < b.branch < bctr
    ensures var c, j := (b.compare - begin) / 4, (b.branch - begin) / 4;
      && 0 <= c < j < |st| && j == c + (b.branch - b.compare) / 4
      && Straight(image, begin, b.compare, st[..c + 1]) && Last(st[..c + 1]) == st[c]
      && Straight(image, b.compare, bctr, st[c..]) && st[c..][0] == st[c] && Last(st[c..]) == Last(st)
      && Straight(image, b.compare, b.branch, st[c..][..j - c + 1]) && st[c..][..j - c + 1][0] == st[c]
        && Last(st[c..][..j - c + 1]) == st[j]
  {
    hide Bounds, Straight, Loaded, Block, InImage, Falls, ValidState;
    BoundsSpan(image, bctr, b);
    StraightStates(image, begin, bctr, st);
    BlockSpan(begin, bctr);
    BlockSpan(begin, b.compare);
    var c, j := (b.compare - begin) / 4, (b.branch - begin) / 4;
    assert begin + 4 * c == b.compare && b.compare + 4 * (j - c) == b.branch;
    StraightHead(image, begin, bctr, st, c);
    StraightTail(image, begin, bctr, st, c);
    StraightHead(image, b.compare, bctr, st[c..], j - c);
    LastIs(st);
    LastIs(st[c..]);
  }

  lemma BlockSpan(begin: int, end: int)
    requires Block(begin, end)
    ensures begin <= end && (end - begin) % 4 == 0
  {
  }

  lemma HoldsCtr(k: Known, s: State)
    requires ValidState(s) && Holds(k, s)
    ensures k.ctr.Some? ==> s.ctr == k.ctr.value
  {
  }

  lemma StraightStates(image: Image, begin: int, end: int, st: seq<State>)
    requires Straight(image, begin, end, st)
    ensures Loaded(image) && |st| == (end - begin) / 4 + 1 && Block(begin, end)
    ensures forall k | 0 <= k < |st| :: ValidState(st[k])
  {
  }

  lemma KnowsRun(image: Image, b: Bound, address: int, relations: map<nat, int>, index: nat, k: Known, st: seq<State>)
    requires Knows(image, b, address, relations, index, k) && Straight(image, b.compare, address, st)
    requires Relates(relations, b.register, st[0]) && st[0].gpr[b.register] == index
    ensures Holds(k, Last(st))
  {
    hide Relates;
  }

  /** A register that ends up holding the index, for every index. */
  predicate Holder(states: seq<Known>, register: nat) {
    forall i | 0 <= i < |states| :: register in states[i].gpr && states[i].gpr[register] == i
  }

  /** The register an index switch may use: the compared one if it still holds the index, or
      the first that does; the compared one when none does. */
  method SwitchRegister(states: seq<Known>, register: nat) returns (s: nat)
    ensures s == register || (s < 32 && Holder(states, s) && !Holder(states, register) && forall r | 0 <= r < s ::
      !Holder(states, r))
    ensures (exists r | 0 <= r < 32 :: Holder(states, r)) ==> Holder(states, s)
  {
    if Holder(states, register) {
      return register;
    }
    for r := 0 to 32
      invariant forall q | 0 <= q < r :: !Holder(states, q)
    {
      if Holder(states, r) {
        return r;
      }
    }
    return register;
  }

  /** When some register holds the index at the bctr, the one chosen does. */
  ghost predicate HoldsIndex(image: Image, begin: int, bctr: int, b: Bound, register: nat)
    requires begin <= b.compare && (b.compare - begin) % 4 == 0 && b.compare < bctr
  {
    forall st: seq<State> | Straight(image, begin, bctr, st) ::
      RunHoldsIndex(image, begin, bctr, b, register, st)
  }

  ghost predicate RunHoldsIndex(image: Image, begin: int, bctr: int, b: Bound, register: nat, st: seq<State>)
    requires begin <= b.compare && (b.compare - begin) % 4 == 0 && b.compare < bctr && Straight(image, begin, bctr, st)
  {
    b.register < 32 && register < 32 &&
    var index := st[(b.compare - begin) / 4].gpr[b.register];
    index <= b.limit ==> Last(st).gpr[register] == index
  }

  lemma HolderHolds(image: Image, begin: int, bctr: int, b: Bound, relations: map<nat, int>, states: seq<Known>,
      register: nat)
    requires Loaded(image) && Bounds(image, bctr, b) && |states| == b.limit + 1 && register < 32
    requires Block(begin, b.compare) && bctr + 4 <= TEXT_END
    requires forall st: seq<State> | Straight(image, begin, b.compare, st) :: Relates(relations, b.register, Last(st))
    requires KnowsAll(image, bctr, b, relations, states) && Holder(states, register)
    ensures begin <= b.compare < bctr && HoldsIndex(image, begin, bctr, b, register)
  {
    hide Bounds, Straight, Relates, Knows, Holds;
    BoundsSpan(image, bctr, b);
    forall st: seq<State> | Straight(image, begin, bctr, st)
      ensures RunHoldsIndex(image, begin, bctr, b, register, st)
    {
      StraightStates(image, begin, bctr, st);
      var c := (b.compare - begin) / 4;
      assert begin + 4 * c == b.compare;
      StraightHead(image, begin, bctr, st, c);
      assert Relates(relations, b.register, st[c]);
      StraightTail(image, begin, bctr, st, c);
      assert st[c..][0] == st[c];
      var index := st[c].gpr[b.register];
      if index <= b.limit {
        KnowsRun(image, b, bctr, relations, index, states[index], st[c..]);
        HoldsGpr(states[index], Last(st), register);
      }
    }
  }

  lemma HoldsGpr(k: Known, s: State, register: nat)
    requires ValidState(s) && Holds(k, s) && register in k.gpr
    ensures register < 32 && s.gpr[register] == k.gpr[register]
  {
  }

  /** With this index the emulator ends with a label in CTR that is allowed. */
  predicate Labelled(image: Image, bctr: int, b: Bound, relations: map<nat, int>, owner: Option<(int, int)>, index: nat)
    requires Loaded(image) && InImage(bctr) && Bounds(image, bctr, b)
  {
    var done := Emulated(image, bctr, b, relations, index);
    done.Accepted? && done.value.ctr.Some? && LabelAllowed(done.value.ctr.value, owner)
  }

  /** What a table needs: a bound, a label for every index within it, and a fallback that is allowed. */
  ghost predicate Recoverable(image: Image, bctr: int, b: Bound, targets: set<int>, owner: Option<(int, int)>)
    requires Loaded(image) && InImage(bctr)
  {
    Bounds(image, bctr, b) &&
    (BoundsSpan(image, bctr, b);
      && (b.fallback.Some? ==> LabelAllowed(b.fallback.value, owner))
      && forall index: nat | index <= b.limit ::
        Labelled(image, bctr, b, RelationsOf(image, b.compare, b.register, targets), owner, index))
  }

  lemma NotRecoverable(image: Image, bctr: int, b: Bound, targets: set<int>, owner: Option<(int, int)>, index: nat)
    requires Loaded(image) && InImage(bctr) && (forall other :: Bounds(image, bctr, other) <==> other == b)
    requires InImage(b.compare) && index <= b.limit
    requires
      || (b.fallback.Some? && !LabelAllowed(b.fallback.value, owner))
      || !Labelled(image, bctr, b, RelationsOf(image, b.compare, b.register, targets), owner, index)
    ensures forall bound :: !Recoverable(image, bctr, bound, targets, owner)
  {
    hide Bounds, Labelled, LabelAllowed, RelationsOf;
  }

  lemma LabelledIs(image: Image, bctr: int, b: Bound, relations: map<nat, int>, owner: Option<(int, int)>, index: nat)
    requires Loaded(image) && InImage(bctr) && Bounds(image, bctr, b)
    ensures var done := Emulated(image, bctr, b, relations, index);
      Labelled(image, bctr, b, relations, owner, index) <==>
        done.Accepted? && done.value.ctr.Some? && LabelAllowed(done.value.ctr.value, owner)
  {
  }

  lemma IsRecoverable(image: Image, bctr: int, b: Bound, targets: set<int>, owner: Option<(int, int)>)
    requires Loaded(image) && InImage(bctr) && Bounds(image, bctr, b) && InImage(b.compare)
    requires b.fallback.Some? ==> LabelAllowed(b.fallback.value, owner)
    requires forall index: nat | index <= b.limit ::
      Labelled(image, bctr, b, RelationsOf(image, b.compare, b.register, targets), owner, index)
    ensures Recoverable(image, bctr, b, targets, owner)
  {
    hide Bounds, Labelled, LabelAllowed, RelationsOf;
  }

  /** The fallback is where the branch goes when it is taken; a conditional return goes to none. */
  lemma FallbackIs(image: Image, bctr: int, b: Bound)
    requires Loaded(image) && Bounds(image, bctr, b)
    ensures InImage(b.branch) && b.fallback == Destination(WordAt(image, b.branch), b.branch)
  {
    hide PlainCode, Dominates, BranchTarget, Wrap;
    BranchTargetIs(b.branch, WordAt(image, b.branch));
  }

  lemma LabelIs(entry: Word, owner: Option<(int, int)>)
    ensures LabelAllowed(entry, owner) <==>
      && entry % 4 == 0 && TEXT_BASE <= entry < TEXT_END
      && (owner == None || (owner.value.0 <= entry < owner.value.1))
  {
  }

  /** analyse, for one bctr: the table and the block it was read from, or a rejection. */
  method RecoverTable(image: Image, bctr: int, targets: set<int>, owner: Option<(int, int)>)
      returns (r: Result<Table>, b: Bound, ghost begin: int, ghost states: seq<Known>)
    requires Loaded(image) && TEXT_BASE <= bctr && bctr + 4 <= TEXT_END && bctr % 4 == 0
    ensures InImage(bctr) && (r.Accepted? <==> exists bound :: Recoverable(image, bctr, bound, targets, owner))
    ensures r.Accepted? ==>
      && Bounds(image, bctr, b) && InImage(b.branch) && b.compare < bctr && |r.value.labels| == b.limit + 1
      && r.value.base == bctr && r.value.fallback == b.fallback
      && (forall entry | entry in r.value.labels ::
        entry % 4 == 0 && TEXT_BASE <= entry < TEXT_END && (owner.Some? ==> owner.value.0 <= entry < owner.value.1))
      && (b.fallback.Some? ==> LabelAllowed(b.fallback.value, owner))
      && r.value.fallback == Destination(WordAt(image, b.branch), b.branch)
    ensures r.Accepted? ==>
      && Block(begin, b.compare) && PlainCode(image, begin, b.compare, targets)
      && |states| == b.limit + 1
    ensures r.Accepted? && Clear(image, bctr, b) ==>
      && Dispatches(image, begin, bctr, b, r.value.labels) && BranchTells(image, b)
      && ((exists register | 0 <= register < 32 :: Holder(states, register))
        ==> HoldsIndex(image, begin, bctr, b, r.value.register))
  {
    hide Bounds, Straight, Relates, Knows, Dispatches, Holder, HoldsIndex, PlainCode, LabelAllowed, Emulated, Labelled;
    hide Recoverable, RelationsOf, Clear, NoneMisses, WordAt, FieldOf, BranchTells;
    begin, states := 0, [];
    var found := FindBound(image, bctr);
    if found.Rejected? {
      NoneRecoverable(image, bctr, targets, owner);
      return Rejected, Bound(0, 0, 0, 0, None), 0, [];
    }
    b := found.value;
    BoundsSpan(image, bctr, b);
    ghost var clear := Clear(image, bctr, b);
    ClearMisses(image, bctr, b);
    var relations, start := IndexRelations(image, b.compare, b.register, targets);
    begin := start;
    var labels: seq<Word>, finals: seq<Known> := [], [];
    for index := 0 to b.limit + 1
      invariant |labels| == |finals| == index
      invariant clear ==> KnowsAll(image, bctr, b, relations, finals)
      invariant forall i | 0 <= i < index :: finals[i].ctr == Some(labels[i])
      invariant forall i: nat | i < index :: Emulated(image, bctr, b, relations, i) == Accepted(finals[i])
    {
      LabelledIs(image, bctr, b, relations, owner, index);
      var done := EmulateIndex(image, bctr, b, relations, index);
      if done.Rejected? || done.value.ctr.None? {
        NotRecoverable(image, bctr, b, targets, owner, index);
        return Rejected, b, begin, [];
      }
      labels := labels + [done.value.ctr.value];
      finals := finals + [done.value];
    }
    var register := SwitchRegister(finals, b.register);
    if clear {
      TableDispatches(image, begin, bctr, b, relations, finals, labels);
      TellsAll(image, bctr, b);
      ChosenHolds(image, begin, bctr, b, relations, finals, register);
    }
    states := finals;
    for i := 0 to |labels|
      invariant forall k | 0 <= k < i :: LabelAllowed(labels[k], owner)
    {
      if !LabelAllowed(labels[i], owner) {
        LabelledIs(image, bctr, b, relations, owner, i);
        NotRecoverable(image, bctr, b, targets, owner, i);
        return Rejected, b, begin, finals;
      }
    }
    if b.fallback.Some? && !LabelAllowed(b.fallback.value, owner) {
      NotRecoverable(image, bctr, b, targets, owner, 0);
      return Rejected, b, begin, finals;
    }
    forall index: nat | index <= b.limit ensures Labelled(image, bctr, b, relations, owner, index) {
      LabelledIs(image, bctr, b, relations, owner, index);
    }
    IsRecoverable(image, bctr, b, targets, owner);
    FallbackIs(image, bctr, b);
    forall entry | entry in labels
      ensures entry % 4 == 0 && TEXT_BASE <= entry < TEXT_END
        && (owner.Some? ==> owner.value.0 <= entry < owner.value.1)
    {
      LabelIs(entry, owner);
    }
    r := Accepted(Table(bctr, register, b.fallback, labels));
  }

  lemma NoneRecoverable(image: Image, bctr: int, targets: set<int>, owner: Option<(int, int)>)
    requires Loaded(image) && InImage(bctr) && forall b :: !Bounds(image, bctr, b)
    ensures forall b :: !Recoverable(image, bctr, b, targets, owner)
  {
    hide Bounds, Labelled, LabelAllowed, RelationsOf;
  }

  lemma ChosenHolds(image: Image, begin: int, bctr: int, b: Bound, relations: map<nat, int>, states: seq<Known>,
      register: nat)
    requires Loaded(image) && Bounds(image, bctr, b) && |states| == b.limit + 1 && register < 32
    requires Block(begin, b.compare) && bctr + 4 <= TEXT_END
    requires forall st: seq<State> | Straight(image, begin, b.compare, st) :: Relates(relations, b.register, Last(st))
    requires KnowsAll(image, bctr, b, relations, states)
    requires (exists r | 0 <= r < 32 :: Holder(states, r)) ==> Holder(states, register)
    ensures begin <= b.compare < bctr && (b.compare - begin) % 4 == 0
    ensures (exists r | 0 <= r < 32 :: Holder(states, r)) ==> HoldsIndex(image, begin, bctr, b, register)
  {
    hide Bounds, Straight, Relates, Knows, Holder, HoldsIndex;
    BoundsSpan(image, bctr, b);
    if Holder(states, register) {
      HolderHolds(image, begin, bctr, b, relations, states, register);
    }
  }
}
