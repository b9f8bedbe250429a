/** Where the recovery of jump tables reads a word as another instruction: exactly when the
    bound then fails, and words it happens at. */
module Misreadings {
  import opened Options
  import opened Bits
  import opened PowerPC
  import opened JumpTables
  import opened Dispatch
  import opened Tables

  // ------------------------------------------------------------ runs there are

  /** Every instruction can be executed. */
  lemma StepGoes(image: Image, word: Word, s: State) returns (s': State)
    requires Loaded(image) && ValidState(s)
    ensures ValidState(s') && Step(image, word, s, s')
  {
    hide Decode, ReadImage, Readable, Wrap, S16, Immediate, FieldA, FieldB, FieldD, FieldMb, FieldMe;
    if Decode(word) == None {
      return s;
    }
    match Decode(word).value
    case AddImmediate(scale) =>
      s' := s.(gpr := s.gpr[FieldD(word) := Wrap((Base(s, FieldA(word)) as int) + S16(Immediate(word)) * scale)]);
    case OrImmediate =>
      s' := WithOr(s, FieldA(word), s.gpr[FieldD(word)], Immediate(word));
    case OrRegisters =>
      s' := WithOr(s, FieldA(word), s.gpr[FieldD(word)], s.gpr[FieldB(word)]);
    case RotateMask =>
      s' := WithRotated(s, FieldA(word), s.gpr[FieldD(word)], FieldB(word), FieldMb(word), FieldMe(word));
    case LoadIndexed(size) =>
      var address := Wrap((Base(s, FieldA(word)) as int) + s.gpr[FieldB(word)]);
      s' := s.(gpr := s.gpr[FieldD(word) := if Readable(address, size) then ReadImage(image, address, size) else 0]);
    case AddRegisters =>
      s' := s.(gpr := s.gpr[FieldD(word) := Wrap((s.gpr[FieldA(word)] as int) + s.gpr[FieldB(word)])]);
    case MoveToCtr =>
      s' := s.(ctr := s.gpr[FieldD(word)]);
    case CompareLogical =>
      var value, i := s.gpr[FieldA(word)], Immediate(word);
      s' := s.(cr := s.cr[FieldD(word) / 4 := Field(value < i, value > i, value == i, false)]);
    case PutsUpdating =>
      s' := s.(gpr := s.gpr[FieldA(word) := EffectiveAddress(word, s)]);
      assert s'.gpr == s.gpr[FieldD(word) := s'.gpr[FieldD(word)]][FieldA(word) := EffectiveAddress(word, s)];
    case Updates =>
      s' := s.(gpr := s.gpr[FieldA(word) := EffectiveAddress(word, s)]);
    case Puts(r, record) =>
      s' := s;
    case Compares(field) =>
      s' := s;
    case Silent =>
      s' := s;
  }

  lemma WithOr(s: State, r: nat, x: Word, y: Word) returns (s': State)
    requires ValidState(s) && r < 32
    ensures ValidState(s') && exists v: Word :: OrOf(v, x, y) && Sets(s, s', r, v)
  {
    OrIsWord(x, y);
    var v: Word := Or(x, y);
    forall k: nat | k < 32 ensures Bit(v, k) <==> Bit(x, k) || Bit(y, k) {
      OrBit(x, y, k);
    }
    s' := s.(gpr := s.gpr[r := v]);
    assert OrOf(v, x, y) && Sets(s, s', r, v);
  }

  lemma WithRotated(s: State, r: nat, x: Word, sh: nat, mb: nat, me: nat) returns (s': State)
    requires ValidState(s) && r < 32 && sh < 32
    ensures ValidState(s') && exists v: Word :: RotatedMasked(v, x, sh, mb, me) && Sets(s, s', r, v)
  {
    hide Rotl32, And, MaskOf;
    var mask := MaskOf(mb, me);
    AndBound(Rotl32(x, sh), mask);
    var v: Word := And(Rotl32(x, sh), mask);
    forall k: nat | k < 32 ensures Bit(v, k) <==> Bit(x, (k + 32 - sh) % 32) && InMask(mb, me, k) {
      AndBit(Rotl32(x, sh), mask, k);
      Rotl32Bit(x, sh, k);
      MaskBit(mb, me, k);
    }
    s' := s.(gpr := s.gpr[r := v]);
    assert RotatedMasked(v, x, sh, mb, me) && Sets(s, s', r, v);
  }

  /** Code without branches. */
  ghost predicate NoBranches(image: Image, begin: int, end: int)
    requires Loaded(image)
  {
    forall at | begin <= at < end && (at - begin) % 4 == 0 && InImage(at) :: !IsControlFlow(WordAt(image, at))
  }

  lemma NoBranchesFrom(image: Image, begin: int, end: int, at: int)
    requires Loaded(image) && NoBranches(image, begin, end) && begin <= at && (at - begin) % 4 == 0
    ensures NoBranches(image, at, end)
  {
    hide IsControlFlow, WordAt;
    forall a | at <= a < end && (a - at) % 4 == 0 && InImage(a) ensures !IsControlFlow(WordAt(image, a)) {
      assert (a - begin) % 4 == 0;
    }
  }

  /** The code of a bound, from its compare up to its branch. */
  lemma BoundIsPlain(image: Image, bctr: int, b: Bound)
    requires Loaded(image) && Bounds(image, bctr, b) && InImage(b.branch)
    ensures NoBranches(image, b.compare, b.branch)
  {
    hide Effects, PlainCode, BranchTarget, IsBgt, IsCmplwi, WordAt, KeepsField, FieldOf;
    var field := FieldOf(WordAt(image, b.branch));
    forall at | b.compare <= at < b.branch && (at - b.compare) % 4 == 0 && InImage(at)
      ensures !IsControlFlow(WordAt(image, at))
    {
      if at == b.compare {
        CompareIsPlain(WordAt(image, at), field);
      } else {
        KeepsAt(image, b.compare + 4, b.branch, field, at);
      }
    }
  }

  /** A straight run from any state, through code without branches. */
  lemma {:induction false} RunGoes(image: Image, begin: int, end: int, s: State) returns (st: seq<State>)
    requires Loaded(image) && Block(begin, end) && ValidState(s) && NoBranches(image, begin, end)
    ensures Straight(image, begin, end, st) && st[0] == s
    decreases end - begin
  {
    hide Falls, NoBranches;
    if begin == end {
      return [s];
    }
    NoBranchesAt(image, begin, end);
    NoBranchesFrom(image, begin, end, begin + 4);
    var next := FallsOn(image, begin, s);
    var rest := RunGoes(image, begin + 4, end, next);
    st := [s] + rest;
    Longer(image, begin, end, s, rest);
  }

  lemma FallsOn(image: Image, address: int, s: State) returns (s': State)
    requires Loaded(image) && InImage(address) && ValidState(s) && !IsControlFlow(WordAt(image, address))
    ensures ValidState(s') && Falls(image, address, s, s')
  {
    hide Step, WordAt;
    s' := StepGoes(image, WordAt(image, address), s);
  }

  lemma NoBranchesAt(image: Image, begin: int, end: int)
    requires Loaded(image) && NoBranches(image, begin, end) && begin < end && InImage(begin)
    ensures !IsControlFlow(WordAt(image, begin))
  {
    hide IsControlFlow, WordAt;
    assert (begin - begin) % 4 == 0;
  }

  lemma Longer(image: Image, begin: int, end: int, s: State, rest: seq<State>)
    requires Block(begin, end) && begin < end && Straight(image, begin + 4, end, rest) && InImage(begin)
    requires ValidState(s) && Loaded(image) && Falls(image, begin, s, rest[0])
    ensures Straight(image, begin, end, [s] + rest)
  {
    hide Falls;
    var st := [s] + rest;
    forall k: nat | k + 1 < |st| ensures Falls(image, begin + 4 * k, st[k], st[k + 1]) {
      if k > 0 {
        assert Falls(image, begin + 4 + 4 * (k - 1), rest[k - 1], rest[k]);
      }
    }
  }

  // ------------------------------------------------------------ the bound

  lemma {:induction false} Joined(image: Image, begin: int, mid: int, end: int, one: seq<State>, other: seq<State>)
    requires Straight(image, begin, mid, one) && Straight(image, mid, end, other) && Last(one) == other[0]
    ensures Straight(image, begin, end, one + other[1..]) && Last(one + other[1..]) == Last(other)
    ensures (one + other[1..])[0] == one[0]
  {
    hide Falls;
    var st := one + other[1..];
    var n := (mid - begin) / 4;
    assert begin + 4 * n == mid && |one| == n + 1;
    forall k: nat | k + 1 < |st| ensures Falls(image, begin + 4 * k, st[k], st[k + 1]) {
      if k < n {
        assert Falls(image, begin + 4 * k, one[k], one[k + 1]);
      } else {
        assert Falls(image, mid + 4 * (k - n), other[k - n], other[k - n + 1]);
      }
    }
  }

  lemma MissesHere(image: Image, start: int, end: int, field: nat)
    requires Loaded(image) && Block(start, end) && !NoneMisses(image, start, end, field)
    requires NoneMisses(image, start + 4, end, field)
    ensures start < end && InImage(start) && MissesField(WordAt(image, start), field)
  {
    hide MissesField, WordAt;
    var at :| start <= at < end && (at - start) % 4 == 0 && InImage(at) && MissesField(WordAt(image, at), field);
    if at != start {
      assert false;
    }
  }

  lemma {:induction false} LastMiss(image: Image, start: int, end: int, field: nat) returns (at: int)
    requires Loaded(image) && Block(start, end) && !NoneMisses(image, start, end, field)
    ensures start <= at < end && (at - start) % 4 == 0 && InImage(at) && MissesField(WordAt(image, at), field)
    ensures NoneMisses(image, at + 4, end, field)
    decreases end - start
  {
    hide MissesField, WordAt;
    if NoneMisses(image, start + 4, end, field) {
      at := start;
      MissesHere(image, start, end, field);
    } else {
      at := LastMiss(image, start + 4, end, field);
    }
  }

  /** The branch is taken on exactly the indices past the limit, on every run, exactly when no
      mcrfs to the field stands between the compare and the branch. */
  lemma BoundHoldsExactly(image: Image, bctr: int, b: Bound)
    requires Loaded(image) && Bounds(image, bctr, b) && InImage(b.branch)
    ensures NoneMisses(image, b.compare + 4, b.branch, FieldOf(WordAt(image, b.branch))) <==> BranchTells(image, b)
  {
    hide *;
    BoundsSpan(image, bctr, b);
    if NoneMisses(image, b.compare + 4, b.branch, FieldOf(WordAt(image, b.branch))) {
      TellsAll(image, bctr, b);
    } else {
      var st := WrongRun(image, bctr, b);
      WrongIs(image, b, st);
      BranchTellsIs(image, b);
    }
  }

  lemma WrongIs(image: Image, b: Bound, st: seq<State>)
    requires Loaded(image) && InImage(b.branch) && b.register < 32 && st != []
    requires ValidState(st[0]) && ValidState(Last(st))
    requires Takes(WordAt(image, b.branch), Last(st)) && st[0].gpr[b.register] == 0
    ensures !Tells(image, b, st)
  {
  }

  /** A run with index 0 that reaches the branch with GT set. */
  lemma WrongRun(image: Image, bctr: int, b: Bound) returns (st: seq<State>)
    requires Loaded(image) && Bounds(image, bctr, b) && InImage(b.branch) && b.register < 32
    requires !NoneMisses(image, b.compare + 4, b.branch, FieldOf(WordAt(image, b.branch)))
    ensures Straight(image, b.compare, b.branch, st) && st != [] && ValidState(st[0]) && ValidState(Last(st))
    ensures Takes(WordAt(image, b.branch), Last(st)) && st[0].gpr[b.register] == 0
  {
    hide *;
    BoundsSpan(image, bctr, b);
    BlockOf(b.compare, b.branch);
    BlockOf(b.compare + 4, b.branch);
    var at := LastMiss(image, b.compare + 4, b.branch, FieldOf(WordAt(image, b.branch)));
    BlockOf(b.compare, at);
    var s := State(seq(32, _ => 0), seq(8, _ => Field(false, false, false, false)), 0);
    StateIs(s);
    BoundIsPlain(image, bctr, b);
    PlainBefore(image, b.compare, at, b.branch);
    var before := RunGoes(image, b.compare, at, s);
    StraightStates(image, b.compare, at, before);
    LastIs(before);
    var rest := AfterMiss(image, bctr, b, at, Last(before));
    Joined(image, b.compare, at, b.branch, before, rest);
    st := before + rest[1..];
    StraightStates(image, b.compare, b.branch, st);
    LastIs(st);
    BranchOnGt(image, bctr, b, Last(st));
  }

  lemma BranchOnGt(image: Image, bctr: int, b: Bound, s: State)
    requires Loaded(image) && Bounds(image, bctr, b) && InImage(b.branch) && ValidState(s)
    ensures Takes(WordAt(image, b.branch), s) <==> s.cr[FieldOf(WordAt(image, b.branch))].gt
  {
    hide Effects, PlainCode, Dominates, BranchTarget, WordAt, Takes, FieldOf;
    TakesOnGt(WordAt(image, b.branch), s);
  }

  /** From the mcrfs on. */
  lemma AfterMiss(image: Image, bctr: int, b: Bound, at: int, s: State) returns (st: seq<State>)
    requires Loaded(image) && Bounds(image, bctr, b) && InImage(b.branch) && InImage(at) && ValidState(s)
    requires b.compare < at < b.branch && (at - b.compare) % 4 == 0
    requires MissesField(WordAt(image, at), FieldOf(WordAt(image, b.branch)))
    requires NoneMisses(image, at + 4, b.branch, FieldOf(WordAt(image, b.branch)))
    ensures Straight(image, at, b.branch, st) && st != [] && st[0] == s
    ensures ValidState(Last(st)) && Last(st).cr[FieldOf(WordAt(image, b.branch))].gt
  {
    hide *;
    BoundsSpan(image, bctr, b);
    var field := FieldOf(WordAt(image, b.branch));
    var wrong := MissTo(image, at, field, s);
    BlockOf(at, b.branch);
    BlockOf(at + 4, b.branch);
    BoundIsPlain(image, bctr, b);
    NoBranchesFrom(image, b.compare, b.branch, at + 4);
    var after := RunGoes(image, at + 4, b.branch, wrong);
    KeepsAfter(image, bctr, b, at);
    FieldKept(image, at + 4, b.branch, field, after);
    Longer(image, at, b.branch, s, after);
    st := [s] + after;
    StraightStates(image, at + 4, b.branch, after);
    LastIs(after);
    LastIs(st);
  }

  lemma PlainBefore(image: Image, begin: int, end: int, later: int)
    requires Loaded(image) && NoBranches(image, begin, later) && end <= later
    ensures NoBranches(image, begin, end)
  {
    hide IsControlFlow, WordAt;
  }

  lemma BlockOf(begin: int, end: int)
    ensures IMAGE_BASE <= begin <= end && end + 4 <= TEXT_END && (end - begin) % 4 == 0 <==> Block(begin, end)
    ensures InImage(begin) <==> IMAGE_BASE <= begin && begin + 4 <= TEXT_END
    ensures InImage(end) <==> IMAGE_BASE <= end && end + 4 <= TEXT_END
  {
  }

  lemma StateIs(s: State)
    requires |s.gpr| == 32 && |s.cr| == 8
    ensures ValidState(s)
  {
  }

  lemma MissTo(image: Image, at: int, field: nat, s: State) returns (s': State)
    requires Loaded(image) && InImage(at) && MissesField(WordAt(image, at), field) && ValidState(s) && field < 8
    ensures ValidState(s') && |s'.cr| == 8 && s'.cr[field].gt && Falls(image, at, s, s')
  {
    hide WordAt, Step;
    var word := WordAt(image, at);
    s' := s.(cr := s.cr[field := Field(false, true, false, false)]);
    assert Opcode(word) == 63 && !IsControlFlow(word);
    MissSteps(image, word, field, s, s');
  }

  lemma MissSteps(image: Image, word: Word, field: nat, s: State, s': State)
    requires Loaded(image) && MissesField(word, field) && ValidState(s) && ValidState(s') && field < 8
    requires s' == s.(cr := s.cr[field := s'.cr[field]])
    ensures Step(image, word, s, s')
  {
    EffectsAre(word);
    hide Decode, Effects, FieldD;
  }

  lemma KeepsAfter(image: Image, bctr: int, b: Bound, at: int)
    requires Loaded(image) && Bounds(image, bctr, b) && b.compare < at < b.branch && (at - b.compare) % 4 == 0
    requires InImage(b.branch)
    ensures KeepsField(image, at + 4, b.branch, FieldOf(WordAt(image, b.branch)))
  {
    hide Effects, PlainCode, BranchTarget, IsBgt, IsCmplwi, FieldOf, WordAt, KeepsField;
    KeepsLater(image, b.compare + 4, b.branch, FieldOf(WordAt(image, b.branch)), at + 4);
  }

  lemma {:induction false} KeepsLater(image: Image, start: int, end: int, field: nat, at: int)
    requires Loaded(image) && KeepsField(image, start, end, field) && start <= at <= end && (at - start) % 4 == 0
    ensures KeepsField(image, at, end, field)
    decreases at - start
  {
    hide Effects, IsControlFlow, WordAt;
    if start < at {
      KeepsLater(image, start + 4, end, field, at);
    }
  }

  // ------------------------------------------------------------ words it happens at

  /** An image with this code at the start of .text. */
  function WithCode(code: seq<Word>): (image: Image)
    ensures Loaded(image)
  {
    var from: int := TEXT_BASE - IMAGE_BASE;
    var data := seq<nat>(TEXT_END - IMAGE_BASE, i requires 0 <= i => ByteOf(code, i - from));
    assert forall i | 0 <= i < |data| :: data[i] == ByteOf(code, i - from);
    Image(data)
  }

  function ByteOf(code: seq<Word>, at: int): (byte: nat)
    ensures byte < 256
  {
    if 0 <= at < 4 * |code| then
      var word := code[at / 4];
      if at % 4 == 0 then word / 0x100_0000 else if at % 4 == 1 then word / 0x1_0000 % 0x100
      else if at % 4 == 2 then word / 0x100 % 0x100 else word % 0x100
    else 0
  }

  lemma CodeAt(code: seq<Word>, k: nat)
    requires k < |code| < 0x1000
    ensures InImage(TEXT_BASE + 4 * k) && WordAt(WithCode(code), TEXT_BASE + 4 * k) == code[k]
  {
    var image, at := WithCode(code), TEXT_BASE - IMAGE_BASE + 4 * k;
    hide WordAt;
    assert InImage(TEXT_BASE + 4 * k);
    WordBytes(image, TEXT_BASE + 4 * k);
    assert image.data[at] == ByteOf(code, 4 * k) && image.data[at + 1] == ByteOf(code, 4 * k + 1);
    assert image.data[at + 2] == ByteOf(code, 4 * k + 2) && image.data[at + 3] == ByteOf(code, 4 * k + 3);
    hide WithCode, ByteOf;
    BytesOfWord(code, k);
  }

  lemma BytesOfWord(code: seq<Word>, k: nat)
    requires k < |code|
    ensures code[k] == ByteOf(code, 4 * k) * 0x100_0000 + ByteOf(code, 4 * k + 1) * 0x1_0000
      + ByteOf(code, 4 * k + 2) * 0x100 + ByteOf(code, 4 * k + 3)
  {
    PlacesOfWord(k);
    var word := code[k];
    assert ByteOf(code, 4 * k) == word / 0x100_0000 && ByteOf(code, 4 * k + 1) == word / 0x1_0000 % 0x100;
    assert ByteOf(code, 4 * k + 2) == word / 0x100 % 0x100 && ByteOf(code, 4 * k + 3) == word % 0x100;
    hide ByteOf;
    PartsOfWord(word, word / 0x100, word / 0x1_0000, word / 0x100_0000);
  }

  lemma PlacesOfWord(k: nat)
    ensures 4 * k / 4 == k && (4 * k + 1) / 4 == k && (4 * k + 2) / 4 == k && (4 * k + 3) / 4 == k
    ensures 4 * k % 4 == 0 && (4 * k + 1) % 4 == 1 && (4 * k + 2) % 4 == 2 && (4 * k + 3) % 4 == 3
  {
  }

  lemma PartsOfWord(word: nat, a: nat, b: nat, c: nat)
    requires a == word / 0x100 && b == word / 0x1_0000 && c == word / 0x100_0000
    ensures word == c * 0x100_0000 + b % 0x100 * 0x1_0000 + a % 0x100 * 0x100 + word % 0x100
  {
    assert b == a / 0x100 && c == b / 0x100;
  }

  /** cmplwi cr6,r11,1; mcrfs cr6,cr0; bgt cr6,.+8; bctr. */
  const MOVED: seq<Word> := [0x2B0B_0001, 0xFF00_0080, 0x4199_0008, 0x4E80_0420]

  /** A bound that find_bound finds, though mcrfs moved to its field after the compare. */
  lemma McrfsBound()
    ensures var image, b := WithCode(MOVED), Bound(TEXT_BASE, TEXT_BASE + 8, 11, 1, Some(TEXT_BASE + 16));
      && InImage(b.branch) && Bounds(image, TEXT_BASE + 12, b)
      && !BranchTells(image, b)
  {
    var image, b := WithCode(MOVED), Bound(TEXT_BASE, TEXT_BASE + 8, 11, 1, Some(TEXT_BASE + 16));
    forall k | 0 <= k < 4 ensures InImage(TEXT_BASE + 4 * k) && WordAt(image, TEXT_BASE + 4 * k) == MOVED[k] {
      CodeAt(MOVED, k);
    }
    hide WithCode, WordAt, BranchTells;
    assert WordAt(image, TEXT_BASE + 4 * 0) == 0x2B0B_0001 && WordAt(image, TEXT_BASE + 4 * 1) == 0xFF00_0080;
    assert WordAt(image, TEXT_BASE + 4 * 2) == 0x4199_0008;
    assert KeepsField(image, TEXT_BASE + 8, TEXT_BASE + 8, 6);
    assert KeepsField(image, TEXT_BASE + 4, TEXT_BASE + 8, 6);
    assert Dominates(image, TEXT_BASE, TEXT_BASE + 8, 6);
    assert PlainCode(image, TEXT_BASE + 12, TEXT_BASE + 12, {});
    assert BranchTarget(TEXT_BASE + 8, 0x4199_0008) == Some(TEXT_BASE + 16);
    assert MissesField(WordAt(image, TEXT_BASE + 4), 6);
    BoundHoldsExactly(image, TEXT_BASE + 12, b);
    assert !NoneMisses(image, TEXT_BASE + 4, TEXT_BASE + 8, 6) by {
      assert (TEXT_BASE + 4 - (TEXT_BASE + 4)) % 4 == 0;
    }
  }

  /** mtctr r0 with its reserved bit set: execute leaves CTR at what it knew. */
  lemma ReservedMtctr(k: Known)
    requires k.ctr.Some? && 0 !in k.gpr
    ensures CtrMissed(0x7C09_03A7, k)
  {
    FieldsOfX(31, 0, 9, 0, 467, true);
    assert Formed(31, 0, 9, 467 * 2 + 1) == 0x7C09_03A7;
    CtrDecodes(0x7C09_03A7);
    MtctrIs(0x7C09_03A7);
    hide Decode, IsMtctr, Opcode, FieldD, FieldA, FieldB, Extended, Record;
  }
}
