/** Whole dispatch blocks: the registers that hold the index, the bound that guards it,
    and the labels its emulation finds. */
module Dispatch {
  import opened Options
  import opened Bits
  import opened PowerPC
  import opened JumpTables

  const MAX_BLOCK: nat := 24
  const IF_TRUE: nat := 12

  // ------------------------------------------------------------ straight-line runs

  /** A branch on a condition alone: bc, bclr or bcctr with BO 12. */
  predicate OnCondition(word: Word) {
    && (Opcode(word) == 16 || (Opcode(word) == 19 && Extended(word) in {16, 528}))
    && FieldD(word) == IF_TRUE
  }

  /** One instruction that control leaves by falling through. A branch on a condition alone was
      not taken then, and changes no register; what any other branch does is not modelled. */
  ghost predicate Falls(image: Image, address: int, s: State, s': State)
    requires Loaded(image) && InImage(address) && ValidState(s)
  {
    var word := WordAt(image, address);
    if !IsControlFlow(word) then Step(image, word, s, s')
    else ValidState(s') && (OnCondition(word) ==> s' == s && !Takes(word, s))
  }

  /** No branch from begin up to end, and no branch elsewhere that lands after begin and up to end. */
  predicate PlainCode(image: Image, begin: int, end: int, targets: set<int>)
    requires Loaded(image)
    decreases end - begin
  {
    begin < end ==>
      && InImage(begin) && !IsControlFlow(WordAt(image, begin))
      && begin + 4 !in targets && PlainCode(image, begin + 4, end, targets)
  }

  /** The code from one address to another, fully inside the image. */
  predicate Block(begin: int, end: int) {
    IMAGE_BASE <= begin <= end && end + 4 <= TEXT_END && (end - begin) % 4 == 0
  }

  /** The states of a run straight through a block, from before begin to before end. */
  ghost predicate Straight(image: Image, begin: int, end: int, st: seq<State>) {
    && Loaded(image) && Block(begin, end)
    && |st| == (end - begin) / 4 + 1
    && (forall k | 0 <= k < |st| :: ValidState(st[k]))
    && forall k: nat | k + 1 < |st| :: Falls(image, begin + 4 * k, st[k], st[k + 1])
  }

  function Last(st: seq<State>): State
    requires st != []
  {
    st[|st| - 1]
  }

  lemma StraightTail(image: Image, begin: int, end: int, st: seq<State>, skip: nat)
    requires Straight(image, begin, end, st) && skip < |st|
    ensures Straight(image, begin + 4 * skip, end, st[skip..]) && Last(st[skip..]) == Last(st)
  {
    var rest := st[skip..];
    forall k: nat | k + 1 < |rest| ensures Falls(image, begin + 4 * skip + 4 * k, rest[k], rest[k + 1]) {
      assert Falls(image, begin + 4 * (skip + k), st[skip + k], st[skip + k + 1]);
    }
  }

  lemma StraightHead(image: Image, begin: int, end: int, st: seq<State>, keep: nat)
    requires Straight(image, begin, end, st) && keep < |st|
    ensures Straight(image, begin, begin + 4 * keep, st[..keep + 1]) && Last(st[..keep + 1]) == st[keep]
  {
    var first := st[..keep + 1];
    forall k: nat | k + 1 < |first| ensures Falls(image, begin + 4 * k, first[k], first[k + 1]) {
      assert Falls(image, begin + 4 * k, st[k], st[k + 1]);
    }
  }

  // ------------------------------------------------------------ the index

  /** Every listed register is the index plus its offset, as 32-bit words. */
  ghost predicate Relates(relations: map<nat, int>, register: nat, s: State)
    requires ValidState(s)
  {
    register < 32 && forall r | r in relations :: r < 32 && s.gpr[r] == Wrap((s.gpr[register] as int) + relations[r])
  }

  ghost predicate Untouched(written: set<nat>, s: State, s': State)
    requires ValidState(s) && ValidState(s')
  {
    forall r | 0 <= r < 32 && r !in written :: s'.gpr[r] == s.gpr[r]
  }

  /** What is known of every straight run from begin to the compare. */
  ghost predicate Copies(image: Image, begin: int, compare: int, register: nat, relations: map<nat, int>,
      written: set<nat>) {
    forall st: seq<State> | Straight(image, begin, compare, st) ::
      Relates(relations, register, Last(st)) && Untouched(written, st[0], Last(st))
  }

  /** mr and addi copy a register, plus a constant, into another. */
  datatype Copy = Copy(destination: nat, source: nat, offset: int)

  function CopyOf(word: Word): Option<Copy> {
    var d, a, b := FieldD(word), FieldA(word), FieldB(word);
    if Opcode(word) == 31 && Extended(word) == 444 && d == b && !Record(word) then Some(Copy(a, d, 0))
    else if Opcode(word) == 14 && a != 0 then Some(Copy(d, a, S16(Immediate(word))))
    else None
  }

  /** The copies there are: mr, addi from another register than r0, and nothing else. */
  lemma CopiesAre(opcode: nat, d: nat, a: nat, b: nat, extended: nat, record: bool)
    requires opcode < 64 && d < 32 && a < 32 && b < 32 && extended < 1024
    ensures var rest := b * 0x0800 + extended * 2 + if record then 1 else 0;
      var word := Formed(opcode, d, a, rest);
      && rest < 0x1_0000 && word < TWO_32
      && CopyOf(word) ==
        if opcode == 31 && extended == 444 && d == b && !record then Some(Copy(a, d, 0))
        else if opcode == 14 && a != 0 then Some(Copy(d, a, if rest >= 0x8000 then rest - 0x1_0000 else rest))
        else None
  {
    FieldsOfX(opcode, d, a, b, extended, record);
    FieldsOfD(opcode, d, a, b * 0x0800 + extended * 2 + if record then 1 else 0);
    hide Formed, Opcode, FieldD, FieldA, FieldB, Extended, Immediate, Record;
  }

  lemma OrSelf(x: Word)
    ensures Or(x, x) == x
  {
    OrIsWord(x, x);
    Ones32();
    forall k: nat | k < 32 ensures Bit(Or(x, x), k) == Bit(x, k) {
      OrBit(x, x, k);
    }
    SameBits(Or(x, x), x, 32);
  }

  lemma CopyHolds(image: Image, word: Word, s: State, s': State)
    requires Loaded(image) && ValidState(s) && Step(image, word, s, s') && CopyOf(word).Some?
    ensures ValidState(s')
    ensures CopyOf(word).value.destination < 32 && CopyOf(word).value.source < 32
    ensures s'.gpr[CopyOf(word).value.destination]
      == Wrap((s.gpr[CopyOf(word).value.source] as int) + CopyOf(word).value.offset)
  {
    hide Wrap, S16, Immediate;
    if Opcode(word) == 31 {
      CopyByOr(image, word, s, s');
    } else {
      CopyByAdd(image, word, s, s');
    }
  }

  lemma CopyByOr(image: Image, word: Word, s: State, s': State)
    requires Loaded(image) && ValidState(s) && Step(image, word, s, s') && CopyOf(word).Some? && Opcode(word) == 31
    ensures ValidState(s') && CopyOf(word).value == Copy(FieldA(word), FieldD(word), 0)
    ensures s'.gpr[FieldA(word)] == Wrap((s.gpr[FieldD(word)] as int) + 0)
  {
    hide Decode, ReadImage, FieldA, FieldB, FieldD, Or, S16, Immediate;
    IndexedDecodes(word);
    var d := s.gpr[FieldD(word)];
    OrSelf(d);
    forall u: Word | OrOf(u, d, d) ensures u == d {
      OrIs(u, d, d);
    }
  }

  lemma CopyByAdd(image: Image, word: Word, s: State, s': State)
    requires Loaded(image) && ValidState(s) && Step(image, word, s, s') && CopyOf(word).Some? && Opcode(word) != 31
    ensures ValidState(s') && CopyOf(word).value == Copy(FieldD(word), FieldA(word), S16(Immediate(word)))
    ensures s'.gpr[FieldD(word)] == Wrap((s.gpr[FieldA(word)] as int) + S16(Immediate(word)))
  {
    hide DecodeX, ReadImage, FieldA, FieldB, FieldD, OrOf, S16, Immediate, Wrap;
  }

  lemma StepLeaves(image: Image, word: Word, s: State, s': State, written: Written)
    requires Loaded(image) && ValidState(s) && Step(image, word, s, s') && Effects(word) == Some(written)
    ensures ValidState(s') && Untouched(written.gprs, s, s')
  {
    hide Step, Effects, Decode;
    StepTouches(image, word, s, s', written);
  }

  /** index_relations' update for one copy. */
  function Related(relations: map<nat, int>, c: Copy, written: set<nat>): map<nat, int> {
    if c.destination == c.source || c.destination in written || c.source in written then relations
    else if c.destination in relations then
      if c.source in relations then relations else relations[c.source := relations[c.destination] - c.offset]
    else if c.source in relations then relations[c.destination := relations[c.source] + c.offset]
    else relations
  }

  /** A copy between registers that stay relates the other register when one is related. */
  lemma RelatedCases(relations: map<nat, int>, c: Copy, written: set<nat>)
    ensures var stays := c.destination != c.source && c.destination !in written && c.source !in written;
      && (stays && c.destination in relations && c.source !in relations ==>
        Related(relations, c, written) == relations[c.source := relations[c.destination] - c.offset])
      && (stays && c.destination !in relations && c.source in relations ==>
        Related(relations, c, written) == relations[c.destination := relations[c.source] + c.offset])
      && (!stays || (c.destination in relations <==> c.source in relations) ==>
        Related(relations, c, written) == relations)
  {
  }

  lemma WrapAdd(x: Word, index: Word, a: int, b: int)
    requires x == Wrap((index as int) + a)
    ensures Wrap((x as int) + b) == Wrap((index as int) + (a + b))
  {
  }

  lemma WrapSub(x: Word, y: Word, b: int)
    requires x == Wrap((y as int) + b)
    ensures y == Wrap((x as int) - b)
  {
  }

  /** One instruction further back. */
  lemma CopiesBack(image: Image, address: int, compare: int, register: nat, relations: map<nat, int>, written: set<nat>,
      effects: Written)
    requires Loaded(image) && Block(address, compare) && address + 4 <= compare
    requires !IsControlFlow(WordAt(image, address)) && Effects(WordAt(image, address)) == Some(effects)
    requires Copies(image, address + 4, compare, register, relations, written)
    ensures Copies(image, address, compare, register,
                   if CopyOf(WordAt(image, address)).Some?
                     then Related(relations, CopyOf(WordAt(image, address)).value, written) else relations,
                   written + effects.gprs)
  {
    hide Step, Effects, CopyOf, Relates, Untouched, Related, IsControlFlow, WordAt;
    var word := WordAt(image, address);
    var c := CopyOf(word);
    forall st: seq<State> | Straight(image, address, compare, st)
      ensures Relates(if c.Some? then Related(relations, c.value, written) else relations, register, Last(st))
      ensures Untouched(written + effects.gprs, st[0], Last(st))
    {
      StraightTail(image, address, compare, st, 1);
      assert Falls(image, address + 4 * 0, st[0], st[0 + 1]);
      OneBack(image, word, register, relations, written, effects, st[0], st[1], Last(st));
    }
  }

  lemma OneBack(image: Image, word: Word, register: nat, relations: map<nat, int>, written: set<nat>, effects: Written,
      s: State, s': State, last: State)
    requires Loaded(image) && ValidState(s) && ValidState(s') && ValidState(last)
    requires Step(image, word, s, s') && Effects(word) == Some(effects)
    requires Relates(relations, register, last) && Untouched(written, s', last)
    ensures Relates(if CopyOf(word).Some? then Related(relations, CopyOf(word).value, written)
      else relations, register, last)
    ensures Untouched(written + effects.gprs, s, last)
  {
    hide *;
    StepLeaves(image, word, s, s', effects);
    UntouchedBoth(effects.gprs, written, s, s', last);
    if CopyOf(word).Some? {
      var c := CopyOf(word).value;
      CopyHolds(image, word, s, s');
      CopyTouches(word, effects);
      if c.destination != c.source && c.destination !in written && c.source !in written {
        UntouchedAt(written, s', last, c.destination);
        UntouchedAt(written + effects.gprs, s, last, c.source);
      }
      RelatedHolds(relations, register, written, c, last);
    }
  }

  lemma UntouchedAt(written: set<nat>, s: State, s': State, r: nat)
    requires ValidState(s) && ValidState(s') && r < 32
    ensures |s.gpr| == |s'.gpr| == 32
    ensures Untouched(written, s, s') && r !in written ==> s'.gpr[r] == s.gpr[r]
  {
  }

  lemma UntouchedBoth(first: set<nat>, second: set<nat>, s: State, s': State, s'': State)
    requires ValidState(s) && ValidState(s') && ValidState(s'')
    requires Untouched(first, s, s') && Untouched(second, s', s'')
    ensures Untouched(second + first, s, s'')
  {
  }

  lemma RelatedHolds(relations: map<nat, int>, register: nat, written: set<nat>, c: Copy, last: State)
    requires ValidState(last) && Relates(relations, register, last) && c.destination < 32 && c.source < 32
    requires c.destination != c.source && c.destination !in written && c.source !in written ==>
      last.gpr[c.destination] == Wrap((last.gpr[c.source] as int) + c.offset)
    ensures Relates(Related(relations, c, written), register, last)
  {
    hide Wrap;
    if c.destination != c.source && c.destination !in written && c.source !in written {
      WrapSub(last.gpr[c.destination], last.gpr[c.source], c.offset);
      if c.destination in relations {
        WrapAdd(last.gpr[c.destination], last.gpr[register], relations[c.destination], -c.offset);
      } else if c.source in relations {
        WrapAdd(last.gpr[c.source], last.gpr[register], relations[c.source], c.offset);
      }
    }
  }

  lemma CopyTouches(word: Word, effects: Written)
    requires CopyOf(word).Some? && Effects(word) == Some(effects)
    ensures effects.gprs == {CopyOf(word).value.destination}
  {
  }

  /** The search back from the compare, from this address on. */
  function RelationsFrom(image: Image, compare: int, targets: set<int>, address: int, relations: map<nat, int>,
      written: set<nat>): map<nat, int>
    requires Loaded(image) && InImage(compare) && (compare - address) % 4 == 0 && address < compare
    decreases address
  {
    if address < TEXT_BASE || compare - address > 4 * MAX_BLOCK || address + 4 in targets then relations
    else
      var word := WordAt(image, address);
      if IsControlFlow(word) || Effects(word) == None then relations
      else
        var copy := CopyOf(word);
        RelationsFrom(image, compare, targets, address - 4,
                      if copy.Some? then Related(relations, copy.value, written) else relations,
                      written + Effects(word).value.gprs)
  }

  function RelationsOf(image: Image, compare: int, register: nat, targets: set<int>): map<nat, int>
    requires Loaded(image) && InImage(compare)
  {
    RelationsFrom(image, compare, targets, compare - 4, map[register := 0], {})
  }

  /** index_relations: the registers equal to the index plus a constant at the compare,
      and where the straight-line code that makes them so begins. */
  method IndexRelations(image: Image, compare: int, register: nat, targets: set<int>)
      returns (relations: map<nat, int>, ghost begin: int)
    requires Loaded(image) && register < 32 && InImage(compare) && compare % 4 == 0
    ensures Block(begin, compare) && PlainCode(image, begin, compare, targets)
    ensures register in relations && relations[register] == 0
    ensures forall st: seq<State> | Straight(image, begin, compare, st) :: Relates(relations, register, Last(st))
    ensures relations == RelationsOf(image, compare, register, targets)
  {
    hide Copies, Related, CopyOf, Effects, IsControlFlow, Straight, Relates, PlainCode;
    relations := map[register := 0];
    var written: set<nat> := {};
    var address := compare - 4;
    NoCopiesYet(image, compare, register);
    PlainNothing(image, compare, targets);
    while address >= TEXT_BASE && compare - address <= 4 * MAX_BLOCK
      invariant Block(address + 4, compare)
      invariant register in relations && relations[register] == 0
      invariant Copies(image, address + 4, compare, register, relations, written)
      invariant PlainCode(image, address + 4, compare, targets)
      invariant RelationsFrom(image, compare, targets, address, relations, written)
        == RelationsOf(image, compare, register, targets)
      decreases address
    {
      if address + 4 in targets && address + 4 <= compare {
        break;
      }
      var word := WordAt(image, address);
      if IsControlFlow(word) {
        break;
      }
      match Effects(word)
      case None => break;
      case Some(effects) =>
        CopiesBack(image, address, compare, register, relations, written, effects);
        PlainBack(image, address, compare, targets);
        if CopyOf(word).Some? {
          StillIndex(relations, CopyOf(word).value, written, register);
          relations := Related(relations, CopyOf(word).value, written);
        }
        written := written + effects.gprs;
        address := address - 4;
    }
    begin := address + 4;
    CopiesRelate(image, begin, compare, register, relations, written);
  }

  lemma PlainNothing(image: Image, at: int, targets: set<int>)
    requires Loaded(image)
    ensures PlainCode(image, at, at, targets)
  {
  }

  lemma PlainBack(image: Image, address: int, end: int, targets: set<int>)
    requires Loaded(image) && InImage(address) && !IsControlFlow(WordAt(image, address))
    requires address + 4 !in targets && PlainCode(image, address + 4, end, targets)
    ensures PlainCode(image, address, end, targets)
  {
  }

  lemma NoCopiesYet(image: Image, compare: int, register: nat)
    requires register < 32
    ensures Copies(image, compare, compare, register, map[register := 0], {})
  {
  }

  lemma CopiesRelate(image: Image, begin: int, compare: int, register: nat, relations: map<nat, int>, written: set<nat>)
    requires Copies(image, begin, compare, register, relations, written)
    ensures forall st: seq<State> | Straight(image, begin, compare, st) :: Relates(relations, register, Last(st))
  {
  }

  lemma StillIndex(relations: map<nat, int>, c: Copy, written: set<nat>, register: nat)
    requires register in relations && relations[register] == 0
    ensures register in Related(relations, c, written) && Related(relations, c, written)[register] == 0
  {
  }
}
