/** Jump-table recovery (scripts/analyse_switches.py): the emulation of a dispatch block,
    the copies of the index, the bound, and why the labels found are the ones reached. */
module JumpTables {
  import opened Options
  import opened Bits
  import opened PowerPC

  datatype Result<T> = Accepted(value: T) | Rejected

  // ------------------------------------------------------------ what is written

  /** mtctr rS. */
  predicate IsMtctr(word: Word) {
    Opcode(word) == 31 && word % 0x0020_0000 == 0x0903A6
  }

  /** cmplwi crN,rA,N. */
  predicate IsCmplwi(word: Word, field: nat) {
    Opcode(word) == 10 && word / 0x0080_0000 % 8 == field && word / 0x0020_0000 % 2 == 0
  }

  const X31_XO_WRITES_RD: set<nat> := {266, 10, 138, 40, 8, 136, 104, 235, 75, 11, 491, 459, 233, 73, 9, 457, 489,
                                       202, 234, 200, 232}
  const X31_X_WRITES_RD: set<nat> := {23, 87, 279, 343, 21, 341, 339, 19, 371, 20, 84, 534, 790}
  const X31_WRITES_RD_AND_RA: set<nat> := {55, 119, 311, 375, 53, 373}
  const X31_WRITES_RA: set<nat> := {28, 60, 444, 412, 316, 124, 476, 284, 24, 536, 792, 824, 922, 954, 986, 26, 58,
                                    27, 539, 794, 826, 827}
  const X31_NO_GPR: set<nat> := {151, 215, 407, 149, 663, 727, 983, 535, 599, 103, 359, 7, 39, 71, 135, 167, 231,
                                 519, 551, 647, 679, 711, 743, 775, 807, 839, 871, 278, 246, 54, 86, 470, 1014,
                                 467, 598, 854, 918, 662}
  const X31_NO_GPR_UPDATE: set<nat> := {183, 247, 439, 695, 759, 181}
  const X31_COMPARES: set<nat> := {0, 32}
  const X31_STORE_CONDITIONAL: set<nat> := {150, 214}

  /** General registers and condition fields an instruction may write. */
  datatype Written = Written(gprs: set<nat>, fields: set<nat>)

  /** effects: what a word may write, or None when that is not known. */
  function Effects(word: Word): Option<Written> {
    var opcode, d, a := Opcode(word), FieldD(word), FieldA(word);
    var rc: set<nat> := if Record(word) then {0} else {};
    if opcode in {32, 34, 40, 42, 58} then Some(Written(if opcode == 58 && word % 4 == 1 then {d, a} else {d}, {}))
    else if opcode in {33, 35, 41, 43} then Some(Written({d, a}, {}))
    else if opcode in {48, 50} then Some(Written({}, {}))
    else if opcode in {49, 51} then Some(Written({a}, {}))
    else if opcode in {36, 38, 44, 52, 54} then Some(Written({}, {}))
    else if opcode in {37, 39, 45, 53, 55} then Some(Written({a}, {}))
    else if opcode == 62 then Some(Written(if word % 4 == 1 then {a} else {}, {}))
    else if opcode in {7, 8, 14, 15} then Some(Written({d}, {}))
    else if opcode in {12, 13} then Some(Written({d}, if opcode == 13 then {0} else {}))
    else if opcode in {24, 25, 26, 27} then Some(Written({a}, {}))
    else if opcode in {28, 29} then Some(Written({a}, {0}))
    else if opcode in {20, 21, 23, 30} then Some(Written({a}, rc))
    else if opcode in {10, 11} then Some(Written({}, {d / 4}))
    else if opcode in {59, 63} then
      if opcode == 63 && Extended(word) in {0, 32} then Some(Written({}, {d / 4}))
      else Some(Written({}, if Record(word) then {1} else {}))
    else if opcode == 4 then Some(Written({}, {6}))
    else if opcode == 31 then Effects31(word)
    else None
  }

  function Effects31(word: Word): Option<Written> {
    var extended, d, a := Extended(word), FieldD(word), FieldA(word);
    var rc: set<nat> := if Record(word) then {0} else {};
    if extended in X31_COMPARES then Some(Written({}, {d / 4}))
    else if extended in X31_STORE_CONDITIONAL then Some(Written({}, {0}))
    else if extended in X31_WRITES_RA then Some(Written({a}, rc))
    else if extended in X31_WRITES_RD_AND_RA then Some(Written({d, a}, {}))
    else if extended in X31_NO_GPR then Some(Written({}, {}))
    else if extended in X31_NO_GPR_UPDATE then Some(Written({a}, {}))
    else if extended in X31_X_WRITES_RD then Some(Written({d}, {}))
    else if extended % 512 in X31_XO_WRITES_RD then Some(Written({d}, rc))
    else None
  }

  /** Bytes read by lwzx, lhzx and lbzx. */
  function LoadSize(extended: nat): nat {
    if extended == 23 then 4 else if extended == 279 then 2 else 1
  }

  // ------------------------------------------------------------ against the instructions

  /** The registers and fields an instruction may change. */
  function Targets(word: Word, op: Operation): Written {
    match op
    case AddImmediate(_) => Written({FieldD(word)}, {})
    case LoadIndexed(_) => Written({FieldD(word)}, {})
    case AddRegisters => Written({FieldD(word)}, {})
    case OrImmediate => Written({FieldA(word)}, {})
    case RotateMask => Written({FieldA(word)}, {})
    case OrRegisters => Written({FieldA(word)}, {})
    case CompareLogical => Written({}, {FieldD(word) / 4})
    case Puts(r, record) => Written({r}, if record.Some? then {record.value} else {})
    case PutsUpdating => Written({FieldD(word), FieldA(word)}, {})
    case Updates => Written({FieldA(word)}, {})
    case Compares(field) => Written({}, {field})
    case MoveToCtr => Written({}, {})
    case Silent => Written({}, {})
  }

  /** mcrfs moves bits of FPSCR to a condition field, which is not listed: the record bit lists
      field 1, whatever the instruction. */
  predicate FieldMissed(word: Word) {
    Opcode(word) == 63 && Extended(word) == 64 && !(Record(word) && FieldD(word) / 4 == 1)
  }

  /** The same words are listed as are instructions. */
  ghost predicate Matches(word: Word) {
    && (Effects(word).Some? <==> Decode(word).Some?)
    && (Decode(word).Some? ==> Effects(word) == Some(Targets(word, Decode(word).value)))
  }

  /** What is listed for a word is exactly what its instruction may change, but for mcrfs. */
  lemma EffectsAre(word: Word)
    ensures Matches(word) <==> !FieldMissed(word)
    ensures FieldMissed(word) ==>
      && Decode(word) == Some(Compares(FieldD(word) / 4))
      && Effects(word) == Some(Written({}, if Record(word) then {1} else {}))
  {
    hide Extended, FieldD, FieldA, Record;
    if Opcode(word) == 31 {
      IndexedAre(word);
      hide Matches;
    }
  }

  lemma IndexedAre(word: Word)
    requires Opcode(word) == 31
    ensures Matches(word)
  {
    assert Decode(word) == DecodeX(word) && Effects(word) == Effects31(word);
    hide *;
    var x := Extended(word);
    if x in X31_WRITES_RA {
      WritersOfA(word);
    } else if x in X31_NO_GPR {
      WritersOfNone(word);
    } else if x in X31_NO_GPR_UPDATE {
      UpdatersOfA(word);
    } else if x in X31_COMPARES || x in X31_STORE_CONDITIONAL {
      WritersOfFields(word);
    } else if x in X31_X_WRITES_RD {
      WritersOfD(word);
    } else if x in X31_WRITES_RD_AND_RA {
      WritersOfBoth(word);
    } else {
      Arithmetic(word);
    }
    MatchesIs(word);
  }

  ghost predicate Matches31(word: Word) {
    && (Effects31(word).Some? <==> DecodeX(word).Some?)
    && (DecodeX(word).Some? ==> Effects31(word) == Some(Targets(word, DecodeX(word).value)))
  }

  lemma MatchesIs(word: Word)
    requires Decode(word) == DecodeX(word) && Effects(word) == Effects31(word) && Matches31(word)
    ensures Matches(word)
  {
    hide Decode, DecodeX, Effects, Effects31;
  }

  lemma WritersOfA(word: Word)
    requires Extended(word) in X31_WRITES_RA
    ensures Matches31(word)
  {
    hide Extended, FieldD, FieldA, Record, DecodeXO;
  }

  lemma WritersOfNone(word: Word)
    requires Extended(word) in X31_NO_GPR && Extended(word) !in X31_WRITES_RA
    ensures Matches31(word)
  {
    hide Extended, FieldD, FieldA, Record, DecodeXO;
  }

  lemma UpdatersOfA(word: Word)
    requires Extended(word) in X31_NO_GPR_UPDATE
    ensures Matches31(word)
  {
    hide Extended, FieldD, FieldA, Record, DecodeXO, X31_WRITES_RA, X31_NO_GPR;
    UpdatersApart(Extended(word));
  }

  lemma UpdatersApart(x: nat)
    requires x in X31_NO_GPR_UPDATE
    ensures x !in X31_WRITES_RA && x !in X31_NO_GPR
  {
    assert x in {183, 247, 439} || x in {695, 759, 181};
  }

  lemma WritersOfFields(word: Word)
    requires Extended(word) in X31_COMPARES || Extended(word) in X31_STORE_CONDITIONAL
    ensures Matches31(word)
  {
    hide Extended, FieldD, FieldA, Record, DecodeXO;
  }

  lemma WritersOfD(word: Word)
    requires Extended(word) in X31_X_WRITES_RD
    ensures Matches31(word)
  {
    hide Effects31, DecodeX;
    ListedWriters(word);
    DecodedWriters(word);
  }

  lemma ListedWriters(word: Word)
    requires Extended(word) in X31_X_WRITES_RD
    ensures Effects31(word) == Some(Written({FieldD(word)}, {}))
  {
    hide Extended, FieldD, FieldA, Record;
    hide X31_WRITES_RA, X31_NO_GPR;
    WritersApart(Extended(word));
  }

  lemma WritersApart(x: nat)
    requires x in X31_X_WRITES_RD
    ensures x !in X31_WRITES_RA && x !in X31_NO_GPR
  {
    assert x in {23, 87, 279, 343} || x in {21, 341, 339, 19} || x in {371, 20, 84, 534, 790};
  }

  lemma DecodedWriters(word: Word)
    requires Extended(word) in X31_X_WRITES_RD
    ensures DecodeX(word).Some? && Targets(word, DecodeX(word).value) == Written({FieldD(word)}, {})
  {
    hide Extended, FieldD, FieldA, Record, DecodeXO;
  }

  lemma WritersOfBoth(word: Word)
    requires Extended(word) in X31_WRITES_RD_AND_RA
    ensures Matches31(word)
  {
    hide Extended, FieldD, FieldA, Record, DecodeXO;
  }

  lemma Arithmetic(word: Word)
    requires Extended(word) !in X31_WRITES_RA && Extended(word) !in X31_NO_GPR && Extended(word) !in X31_NO_GPR_UPDATE
    requires Extended(word) !in X31_COMPARES && Extended(word) !in X31_STORE_CONDITIONAL
    requires Extended(word) !in X31_X_WRITES_RD && Extended(word) !in X31_WRITES_RD_AND_RA
    ensures Matches31(word)
  {
    hide Extended, FieldD, FieldA, Record;
    XoOf(word);
    XoMatches(word);
    hide DecodeXO;
  }

  lemma XoOf(word: Word)
    requires Extended(word) !in X31_WRITES_RA && Extended(word) !in X31_NO_GPR && Extended(word) !in X31_NO_GPR_UPDATE
    requires Extended(word) !in X31_COMPARES && Extended(word) !in X31_STORE_CONDITIONAL
    requires Extended(word) !in X31_X_WRITES_RD && Extended(word) !in X31_WRITES_RD_AND_RA
    ensures DecodeX(word) == DecodeXO(word)
  {
    hide Extended, FieldD, FieldA, Record, DecodeXO;
  }

  lemma XoMatches(word: Word)
    ensures DecodeXO(word).Some? <==> Extended(word) % 512 in X31_XO_WRITES_RD
    ensures DecodeXO(word).Some? ==>
      Targets(word, DecodeXO(word).value) == Written({FieldD(word)}, if Record(word) then {0} else {})
  {
    hide Extended, FieldD, FieldA, Record;
  }

  /** Only what is listed changes. */
  ghost predicate ChangesOnly(written: Written, s: State, s': State)
    requires ValidState(s)
  {
    && ValidState(s') && s'.ctr == s.ctr
    && (forall r | 0 <= r < 32 && r !in written.gprs :: s'.gpr[r] == s.gpr[r])
    && (forall f | 0 <= f < 8 && f !in written.fields :: s'.cr[f] == s.cr[f])
  }

  predicate IsMoveToCtr(word: Word) {
    Decode(word) == Some(MoveToCtr)
  }

  lemma DoesTouch(image: Image, word: Word, op: Operation, s: State, s': State)
    requires Loaded(image) && ValidState(s) && ValidState(s') && Decode(word) == Some(op)
      && Does(image, word, op, s, s')
    ensures if op == MoveToCtr then s' == s.(ctr := s.gpr[FieldD(word)]) else ChangesOnly(Targets(word, op), s, s')
  {
    hide Decode, OrOf, RotatedMasked, Wrap, ReadImage, Readable, S16, FieldD, FieldA, FieldB;
  }

  /** Whatever a word lists, no other register changes, and CTR is changed by a move to it alone. */
  lemma StepTouches(image: Image, word: Word, s: State, s': State, written: Written)
    requires Loaded(image) && ValidState(s) && Step(image, word, s, s') && Effects(word) == Some(written)
    ensures ValidState(s') && forall r | 0 <= r < 32 && r !in written.gprs :: s'.gpr[r] == s.gpr[r]
    ensures s'.ctr == if IsMoveToCtr(word) then s.gpr[FieldD(word)] else s.ctr
    ensures !FieldMissed(word) ==> forall f | 0 <= f < 8 && f !in written.fields :: s'.cr[f] == s.cr[f]
  {
    hide Effects, Decode, Does, FieldMissed;
    EffectsAre(word);
    DoesTouch(image, word, Decode(word).value, s, s');
  }

  /** The listed effects of a word cover every step of its instruction, exactly unless it is
      mcrfs, whose condition field is not listed, or a move to CTR. */
  lemma EffectsCover(image: Image, word: Word, written: Written)
    requires Loaded(image) && Effects(word) == Some(written)
    ensures (forall s, s' | ValidState(s) && Step(image, word, s, s') :: ChangesOnly(written, s, s')) <==>
      !FieldMissed(word) && !IsMoveToCtr(word)
  {
    hide Effects, Decode, FieldMissed;
    forall s, s' | ValidState(s) && Step(image, word, s, s') && !FieldMissed(word) && !IsMoveToCtr(word)
      ensures ChangesOnly(written, s, s')
    {
      StepTouches(image, word, s, s', written);
    }
    var s := State(seq(32, _ => 1), seq(8, _ => Field(false, false, false, false)), 0);
    if IsMoveToCtr(word) {
      assert Step(image, word, s, s.(ctr := 1));
    } else if FieldMissed(word) {
      var s' := s.(cr := s.cr[FieldD(word) / 4 := Field(true, true, true, true)]);
      FieldStep(image, word, written, s, s');
      assert !ChangesOnly(written, s, s');
    }
  }

  /** What mcrfs may do. */
  lemma FieldStep(image: Image, word: Word, written: Written, s: State, s': State)
    requires Loaded(image) && FieldMissed(word) && Effects(word) == Some(written) && ValidState(s) && ValidState(s')
    requires s' == s.(cr := s'.cr) && s'.cr == s.cr[FieldD(word) / 4 := s'.cr[FieldD(word) / 4]]
    ensures Step(image, word, s, s') && FieldD(word) / 4 !in written.fields
  {
    hide Effects, Decode, Extended, FieldD, Record;
    EffectsAre(word);
  }

  // ------------------------------------------------------------ what is known

  /** The registers known so far, by number, and CTR. */
  datatype Known = Known(gpr: map<nat, Word>, ctr: Option<Word>)

  ghost predicate Holds(k: Known, s: State)
    requires ValidState(s)
  {
    && (forall r | r in k.gpr :: r < 32 && s.gpr[r] == k.gpr[r])
    && (k.ctr.Some? ==> s.ctr == k.ctr.value)
  }

  function Forget(k: Known, gprs: set<nat>): Known {
    k.(gpr := k.gpr - gprs)
  }

  function KnownBase(k: Known, a: nat): Option<Word> {
    if a == 0 then Some(0) else if a in k.gpr then Some(k.gpr[a]) else None
  }

  ghost predicate StepsTo(image: Image, word: Word, k: Known, k': Known) {
    Loaded(image) &&
    forall s, s' | ValidState(s) && Holds(k, s) && Step(image, word, s, s') :: Holds(k', s')
  }

  lemma OrIs(v: Word, x: Word, y: Word)
    requires OrOf(v, x, y)
    ensures v == Or(x, y)
  {
    Ones32();
    OrBound(x, y, 32);
    forall k: nat | k < 32 ensures Bit(v, k) == Bit(Or(x, y), k) {
      OrBit(x, y, k);
    }
    SameBits(v, Or(x, y), 32);
  }

  lemma OrIsWord(x: Word, y: Word)
    ensures Or(x, y) < TWO_32
  {
    Ones32();
    OrBound(x, y, 32);
  }

  /** The emulator's rotate-and-mask is the instruction's. */
  lemma RotatedMaskedIs(v: Word, x: Word, sh: nat, mb: nat, me: nat, mask: Word)
    requires sh < 32 && RotatedMasked(v, x, sh, mb, me)
    requires forall k: nat :: Bit(mask, k) <==> InMask(mb, me, k)
    ensures v == And(Rotl32(x, sh), mask)
  {
    Ones32();
    AndBound(Rotl32(x, sh), mask);
    forall k: nat | k < 32 ensures Bit(v, k) == Bit(And(Rotl32(x, sh), mask), k) {
      AndBit(Rotl32(x, sh), mask, k);
      Rotl32Bit(x, sh, k);
    }
    SameBits(v, And(Rotl32(x, sh), mask), 32);
  }

  lemma SetsHolds(image: Image, word: Word, k: Known, r: nat, value: Word)
    requires Loaded(image) && r < 32
    requires forall s, s' | ValidState(s) && Holds(k, s) && Step(image, word, s, s') :: Sets(s, s', r, value)
    ensures StepsTo(image, word, k, k.(gpr := k.gpr[r := value]))
  {
    hide Step;
  }

  /** addi, addis and ori on known registers. */
  function ByImmediate(word: Word, k: Known): Option<Known>
    requires Opcode(word) in {14, 15, 24}
  {
    var opcode, d, a := Opcode(word), FieldD(word), FieldA(word);
    if opcode == 24 then
      if d in k.gpr then
        OrIsWord(k.gpr[d], Immediate(word));
        Some(k.(gpr := k.gpr[a := Or(k.gpr[d], Immediate(word))]))
      else None
    else
      var base := KnownBase(k, a);
      if base == None then None
      else
        var v := Wrap((base.value as int) + S16(Immediate(word)) * if opcode == 15 then 0x1_0000 else 1);
        Some(k.(gpr := k.gpr[d := v]))
  }

  lemma ByImmediateHolds(image: Image, word: Word, k: Known)
    requires Loaded(image) && !IsMtctr(word) && Opcode(word) in {14, 15, 24} && ByImmediate(word, k).Some?
    ensures StepsTo(image, word, k, ByImmediate(word, k).value)
  {
    var opcode, d, a := Opcode(word), FieldD(word), FieldA(word);
    if opcode == 24 {
      OrIsWord(k.gpr[d], Immediate(word));
      var v: Word := Or(k.gpr[d], Immediate(word));
      forall s, s' | ValidState(s) && Holds(k, s) && Step(image, word, s, s') ensures Sets(s, s', a, v) {
        var u: Word :| OrOf(u, s.gpr[d], Immediate(word)) && Sets(s, s', a, u);
        OrIs(u, k.gpr[d], Immediate(word));
      }
      SetsHolds(image, word, k, a, v);
    } else {
      var base := KnownBase(k, a);
      var v := Wrap((base.value as int) + S16(Immediate(word)) * if opcode == 15 then 0x1_0000 else 1);
      SetsHolds(image, word, k, d, v);
    }
  }

  /** rlwinm on a known register. */
  function ByRotate(word: Word, k: Known): Option<Known> {
    var d, a, sh := FieldD(word), FieldA(word), FieldB(word);
    if d in k.gpr then
      var mask := MaskOf(FieldMb(word), FieldMe(word));
      AndBound(Rotl32(k.gpr[d], sh), mask);
      Some(k.(gpr := k.gpr[a := And(Rotl32(k.gpr[d], sh), mask)]))
    else None
  }

  lemma ByRotateHolds(image: Image, word: Word, k: Known)
    requires Loaded(image) && Opcode(word) == 21 && !Record(word) && ByRotate(word, k).Some?
    ensures StepsTo(image, word, k, ByRotate(word, k).value)
  {
    hide Or, FieldD, FieldA, FieldB, FieldMb, FieldMe, MaskOf, RotatedMasked;
    var d, a, sh, mask := FieldD(word), FieldA(word), FieldB(word), MaskOf(FieldMb(word), FieldMe(word));
    AndBound(Rotl32(k.gpr[d], sh), mask);
    var v: Word := And(Rotl32(k.gpr[d], sh), mask);
    forall s, s' | ValidState(s) && Holds(k, s) && Step(image, word, s, s') ensures Sets(s, s', a, v) {
      var u: Word :| RotatedMasked(u, s.gpr[d], sh, FieldMb(word), FieldMe(word)) && Sets(s, s', a, u);
      forall i: nat ensures Bit(mask, i) <==> InMask(FieldMb(word), FieldMe(word), i) {
        MaskBit(FieldMb(word), FieldMe(word), i);
      }
      RotatedMaskedIs(u, k.gpr[d], sh, FieldMb(word), FieldMe(word), mask);
    }
    SetsHolds(image, word, k, a, v);
  }

  /** Indexed loads, add and or on known registers; a table outside read-only data is rejected. */
  function ByIndex(image: Image, word: Word, k: Known): Result<Option<Known>>
    requires Loaded(image) && Opcode(word) == 31
  {
    var extended, d, a, b := Extended(word), FieldD(word), FieldA(word), FieldB(word);
    if extended in {23, 279, 87} && KnownBase(k, a).Some? && b in k.gpr then
      var address := Wrap((KnownBase(k, a).value as int) + k.gpr[b]);
      if !Readable(address, LoadSize(extended)) then Rejected
      else Accepted(Some(k.(gpr := k.gpr[d := ReadImage(image, address, LoadSize(extended))])))
    else if extended == 266 && a in k.gpr && b in k.gpr then
      Accepted(Some(k.(gpr := k.gpr[d := Wrap((k.gpr[a] as int) + k.gpr[b])])))
    else if extended == 444 && d in k.gpr && b in k.gpr then
      OrIsWord(k.gpr[d], k.gpr[b]);
      Accepted(Some(k.(gpr := k.gpr[a := Or(k.gpr[d], k.gpr[b])])))
    else Accepted(None)
  }

  lemma ByIndexHolds(image: Image, word: Word, k: Known)
    requires Loaded(image) && !IsMtctr(word) && Opcode(word) == 31 && !Record(word)
    requires ByIndex(image, word, k).Accepted? && ByIndex(image, word, k).value.Some?
    ensures StepsTo(image, word, k, ByIndex(image, word, k).value.value)
  {
    hide Decode, StepsTo, OrOf, Or, IsMtctr, Sets, Step;
    IndexedDecodes(word);
    if Extended(word) in {23, 279, 87} {
      LoadHolds(image, word, k, LoadSize(Extended(word)));
    } else if Extended(word) == 266 {
      AddHolds(image, word, k);
    } else {
      OrHolds(image, word, k);
    }
  }

  lemma IndexedDecodes(word: Word)
    requires Opcode(word) == 31 && !Record(word) && Extended(word) in {23, 279, 87, 266, 444}
    ensures Decode(word) == Some(
      if Extended(word) == 266 then AddRegisters else if Extended(word) == 444 then OrRegisters
      else LoadIndexed(LoadSize(Extended(word))))
  {
    hide Extended, FieldD, FieldA, FieldB, Record;
  }

  lemma LoadHolds(image: Image, word: Word, k: Known, size: nat)
    requires Loaded(image) && Decode(word) == Some(LoadIndexed(size)) && size <= 4
    requires KnownBase(k, FieldA(word)).Some? && FieldB(word) in k.gpr
    requires Readable(Wrap((KnownBase(k, FieldA(word)).value as int) + k.gpr[FieldB(word)]), size)
    ensures var address := Wrap((KnownBase(k, FieldA(word)).value as int) + k.gpr[FieldB(word)]);
      StepsTo(image, word, k, k.(gpr := k.gpr[FieldD(word) := ReadImage(image, address, size)]))
  {
    hide Decode, FieldA, FieldB, FieldD, Wrap, ReadImage, Readable;
    var address := Wrap((KnownBase(k, FieldA(word)).value as int) + k.gpr[FieldB(word)]);
    SetsHolds(image, word, k, FieldD(word), ReadImage(image, address, size));
  }

  lemma AddHolds(image: Image, word: Word, k: Known)
    requires Loaded(image) && Decode(word) == Some(AddRegisters) && FieldA(word) in k.gpr && FieldB(word) in k.gpr
    ensures StepsTo(image, word, k,
      k.(gpr := k.gpr[FieldD(word) := Wrap((k.gpr[FieldA(word)] as int) + k.gpr[FieldB(word)])]))
  {
    hide Decode, FieldA, FieldB, FieldD, Wrap;
    SetsHolds(image, word, k, FieldD(word), Wrap((k.gpr[FieldA(word)] as int) + k.gpr[FieldB(word)]));
  }

  lemma OrHolds(image: Image, word: Word, k: Known)
    requires Loaded(image) && Decode(word) == Some(OrRegisters) && FieldD(word) in k.gpr && FieldB(word) in k.gpr
    ensures Or(k.gpr[FieldD(word)], k.gpr[FieldB(word)]) < TWO_32
    ensures StepsTo(image, word, k, k.(gpr := k.gpr[FieldA(word) := Or(k.gpr[FieldD(word)], k.gpr[FieldB(word)])]))
  {
    hide Decode, FieldA, FieldB, FieldD, Or;
    var d, a, b := FieldD(word), FieldA(word), FieldB(word);
    OrIsWord(k.gpr[d], k.gpr[b]);
    var v: Word := Or(k.gpr[d], k.gpr[b]);
    forall s, s' | ValidState(s) && Holds(k, s) && Step(image, word, s, s') ensures Sets(s, s', a, v) {
      var u: Word :| OrOf(u, s.gpr[d], s.gpr[b]) && Sets(s, s', a, u);
      OrIs(u, k.gpr[d], k.gpr[b]);
    }
    SetsHolds(image, word, k, a, v);
  }

  /** An instruction writes CTR, and the emulator, which looks for mtctr without its reserved bit,
      takes CTR to stay what it knew. */
  predicate CtrMissed(word: Word, k: Known) {
    && IsMoveToCtr(word) && !IsMtctr(word) && k.ctr.Some?
    && !(FieldD(word) in k.gpr && k.gpr[FieldD(word)] == k.ctr.value)
  }

  lemma ForgetHolds(image: Image, word: Word, k: Known, written: Written)
    requires Loaded(image) && Effects(word) == Some(written) && !CtrMissed(word, k)
    requires !IsMtctr(word)
    ensures StepsTo(image, word, k, Forget(k, written.gprs))
  {
    hide Step, Effects, Decode, IsMtctr;
    forall s, s' | ValidState(s) && Holds(k, s) && Step(image, word, s, s')
      ensures ValidState(s') && Holds(Forget(k, written.gprs), s')
    {
      StepTouches(image, word, s, s', written);
    }
  }

  /** The result of an instruction on the registers known so far, when it is exact and its
      inputs are known. */
  function Computed(image: Image, word: Word, k: Known): Result<Option<Known>>
    requires Loaded(image)
  {
    if Opcode(word) in {14, 15, 24} then Accepted(ByImmediate(word, k))
    else if Opcode(word) == 21 && !Record(word) then Accepted(ByRotate(word, k))
    else if Opcode(word) == 31 && !Record(word) then ByIndex(image, word, k)
    else Accepted(None)
  }

  /** What execute does: mtctr, an exact instruction, or forgetting what the others may write;
      rejected when it is not modelled or reads a table outside read-only data. */
  function Executed(image: Image, word: Word, k: Known): Result<Known>
    requires Loaded(image)
  {
    if IsMtctr(word) then
      Accepted(k.(ctr := if FieldD(word) in k.gpr then Some(k.gpr[FieldD(word)]) else None))
    else
      match Computed(image, word, k)
      case Rejected => Rejected
      case Accepted(Some(known)) => Accepted(known)
      case Accepted(None) =>
        match Effects(word)
        case None => Rejected
        case Some(written) => Accepted(Forget(k, written.gprs))
  }

  /** A result is known exactly when the inputs are. */
  lemma KnownWhen(image: Image, word: Word, k: Known)
    requires Loaded(image) && Computed(image, word, k).Accepted?
    ensures var d, a, b, x := FieldD(word), FieldA(word), FieldB(word), Extended(word);
      Computed(image, word, k).value.Some? <==>
        || (Opcode(word) in {14, 15} && (a == 0 || a in k.gpr))
        || (Opcode(word) == 24 && d in k.gpr)
        || (Opcode(word) == 21 && word % 2 == 0 && d in k.gpr)
        || (Opcode(word) == 31 && word % 2 == 0 &&
            ((x in {23, 279, 87} && (a == 0 || a in k.gpr) && b in k.gpr)
             || (x == 266 && a in k.gpr && b in k.gpr) || (x == 444 && d in k.gpr && b in k.gpr)))
  {
    hide Or, And, Rotl32, MaskOf, ReadImage, Readable, Wrap, Opcode, FieldD, FieldA, FieldB, Extended;
  }

  /** What stays known of an instruction is so of the machine, unless it writes CTR unseen. */
  lemma ExecutedHolds(image: Image, word: Word, k: Known)
    requires Loaded(image) && Executed(image, word, k).Accepted? && !CtrMissed(word, k)
    ensures StepsTo(image, word, k, Executed(image, word, k).value)
  {
    hide Step, StepsTo, Decode, Effects, ReadImage, Or, And, S16, Immediate, CtrMissed, IsMtctr, ByImmediate, ByRotate;
    hide ByIndex;
    if IsMtctr(word) {
      MtctrSteps(image, word, k);
    } else if Computed(image, word, k).value.Some? {
      if Opcode(word) in {14, 15, 24} {
        ByImmediateHolds(image, word, k);
      } else if Opcode(word) == 21 {
        ByRotateHolds(image, word, k);
      } else {
        ByIndexHolds(image, word, k);
      }
    } else {
      ForgetHolds(image, word, k, Effects(word).value);
    }
  }

  /** And this is exact. */
  lemma ExecutedExactly(image: Image, word: Word, k: Known)
    requires Loaded(image) && Executed(image, word, k).Accepted? && forall r | r in k.gpr :: r < 32
    ensures StepsTo(image, word, k, Executed(image, word, k).value) <==> !CtrMissed(word, k)
  {
    hide Step, Decode, Effects, IsMtctr, Executed, FieldD;
    if CtrMissed(word, k) {
      MissedKeeps(image, word, k);
      var d, other: Word := FieldD(word), if k.ctr.value == 0 then 1 else 0;
      var s := State(seq(32, r => if r in k.gpr then k.gpr[r] else other),
                     seq(8, _ => Field(false, false, false, false)), k.ctr.value);
      CtrStep(image, word, s);
      assert Holds(k, s) && !Holds(Executed(image, word, k).value, s.(ctr := s.gpr[d]));
    } else {
      ExecutedHolds(image, word, k);
    }
  }

  lemma MissedKeeps(image: Image, word: Word, k: Known)
    requires Loaded(image) && CtrMissed(word, k)
    ensures Executed(image, word, k) == Accepted(Forget(k, {}))
  {
    CtrDecodes(word);
    EffectsAre(word);
    hide Decode, Effects, IsMtctr, FieldD;
  }

  lemma CtrStep(image: Image, word: Word, s: State)
    requires Loaded(image) && ValidState(s) && IsMoveToCtr(word)
    ensures Step(image, word, s, s.(ctr := s.gpr[FieldD(word)]))
  {
    hide Decode;
  }

  /** execute: one instruction on the registers known so far. */
  method Execute(image: Image, word: Word, k: Known) returns (r: Result<Known>)
    requires Loaded(image)
    ensures r == Executed(image, word, k)
    ensures r.Accepted? && !CtrMissed(word, k) ==> StepsTo(image, word, k, r.value)
  {
    hide StepsTo, Effects, ByImmediate, ByIndex, IsMtctr, CtrMissed;
    ghost var safe := Executed(image, word, k).Accepted? && !CtrMissed(word, k);
    if safe {
      ExecutedHolds(image, word, k);
    }
    var opcode := Opcode(word);
    if IsMtctr(word) {
      var d := FieldD(word);
      return Accepted(k.(ctr := if d in k.gpr then Some(k.gpr[d]) else None));
    }
    var known: Option<Known> := None;
    if opcode in {14, 15, 24} {
      known := ByImmediate(word, k);
    } else if opcode == 21 && !Record(word) {
      var d, a, sh := FieldD(word), FieldA(word), FieldB(word);
      if d in k.gpr {
        var mask := Mask32(FieldMb(word), FieldMe(word));
        AndBound(Rotl32(k.gpr[d], sh), mask);
        known := Some(k.(gpr := k.gpr[a := And(Rotl32(k.gpr[d], sh), mask)]));
      }
    } else if opcode == 31 && !Record(word) {
      var tried := ByIndex(image, word, k);
      if tried.Rejected? {
        return Rejected;
      }
      known := tried.value;
    }
    if known.Some? {
      return Accepted(known.value);
    }
    match Effects(word)
    case None => return Rejected;
    case Some(written) => return Accepted(Forget(k, written.gprs));
  }

  lemma MtctrSteps(image: Image, word: Word, k: Known)
    requires Loaded(image)
    ensures IsMtctr(word) ==>
      StepsTo(image, word, k, k.(ctr := if FieldD(word) in k.gpr then Some(k.gpr[FieldD(word)]) else None))
  {
    MtctrIs(word);
    hide Decode, IsMtctr;
  }

  /** The emulator's mtctr is the instruction with its reserved bit clear. */
  lemma MtctrIs(word: Word)
    ensures IsMtctr(word) <==> IsMoveToCtr(word) && !Record(word)
  {
    CtrDecodes(word);
    LowFieldsIs(word);
    hide Decode;
  }

  lemma CtrDecodes(word: Word)
    ensures IsMoveToCtr(word) <==> Opcode(word) == 31 && Extended(word) == 467 && FieldA(word) == 9 && FieldB(word) == 0
  {
    hide Extended, FieldD, FieldA, FieldB, Record;
  }

  lemma LowFieldsIs(word: Word)
    ensures word % 0x20_0000 == FieldA(word) * 0x1_0000 + FieldB(word) * 0x0800 + Extended(word) * 2 + word % 2
  {
    var x := word / 2;
    assert word / 0x0800 == x / 1024 && word / 0x1_0000 == x / 1024 / 32;
    LowPart(x / 1024 / 32, x / 1024, x, word);
  }

  lemma LowPart(high: nat, mid: nat, x: nat, word: nat)
    requires x == word / 2 && mid == x / 1024 && high == mid / 32
    ensures word % 0x20_0000 == high % 32 * 0x1_0000 + mid % 32 * 0x0800 + x % 1024 * 2 + word % 2
  {
  }
}
