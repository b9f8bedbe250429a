/** The part of the Power ISA the jump-table recovery relies on: 32-bit register words,
    condition fields, the count register, and what each instruction may change. */
module PowerPC {
  import opened Options
  import opened Bits

  const IMAGE_BASE: nat := 0x82000000
  const TEXT_BASE: nat := 0x82210000
  const TEXT_END: nat := 0x82210000 + 0x8BC4EC
  const BCTR: nat := 0x4E800420
  const BLR: nat := 0x4E800020
  const GT: nat := 1

  // ------------------------------------------------------------ instruction fields

  function Opcode(word: Word): nat { word / 0x0400_0000 }
  function FieldD(word: Word): (d: nat) ensures d < 32 { word / 0x0020_0000 % 32 }
  function FieldA(word: Word): (a: nat) ensures a < 32 { word / 0x0001_0000 % 32 }
  function FieldB(word: Word): (b: nat) ensures b < 32 { word / 0x0800 % 32 }
  function FieldMb(word: Word): (b: nat) ensures b < 32 { word / 64 % 32 }
  function FieldMe(word: Word): (e: nat) ensures e < 32 { word / 2 % 32 }
  function Extended(word: Word): (x: nat) ensures x < 1024 { word / 2 % 1024 }
  function Immediate(word: Word): (i: nat) ensures i < 0x1_0000 { word % 0x1_0000 }
  predicate Record(word: Word) { word % 2 == 1 }

  lemma Quotient(q: nat, unit: nat, low: nat)
    requires low < unit
    ensures (q * unit + low) / unit == q && (q * unit + low) % unit == low
  {
    var x := q * unit + low;
    var k := x / unit;
    assert x == k * unit + x % unit && 0 <= x % unit < unit;
    assert (k - q) * unit == low - x % unit;
    if k != q {
      Apart(k - q, unit);
      assert false;
    }
  }

  lemma Apart(n: int, unit: nat)
    requires n != 0
    ensures n * unit >= unit || n * unit + unit <= 0
  {
    assert if n > 0 then (n - 1) * unit >= 0 else (-n - 1) * unit >= 0;
  }

  /** The word of a primary opcode, two registers and the rest. */
  function Formed(opcode: nat, d: nat, a: nat, rest: nat): nat {
    ((opcode * 32 + d) * 32 + a) * 0x1_0000 + rest
  }

  /** D form: the rest is the immediate. */
  lemma FieldsOfD(opcode: nat, d: nat, a: nat, rest: nat)
    requires opcode < 64 && d < 32 && a < 32 && rest < 0x1_0000
    ensures var word := Formed(opcode, d, a, rest);
      && word < TWO_32 && Opcode(word) == opcode && FieldD(word) == d && FieldA(word) == a && Immediate(word) == rest
  {
    var word := Formed(opcode, d, a, rest);
    Quotient((opcode * 32 + d) * 32 + a, 0x1_0000, rest);
    Quotient(opcode * 32 + d, 0x20_0000, a * 0x1_0000 + rest);
    Quotient(opcode, 0x0400_0000, d * 0x20_0000 + a * 0x1_0000 + rest);
    assert word / 0x1_0000 == (opcode * 32 + d) * 32 + a && word / 0x20_0000 == opcode * 32 + d;
  }

  /** X form: a third register, an extended opcode and the record bit. */
  lemma FieldsOfX(opcode: nat, d: nat, a: nat, b: nat, extended: nat, record: bool)
    requires opcode < 64 && d < 32 && a < 32 && b < 32 && extended < 1024
    ensures var word := Formed(opcode, d, a, b * 0x0800 + extended * 2 + if record then 1 else 0);
      && word < TWO_32 && Opcode(word) == opcode && FieldD(word) == d && FieldA(word) == a && FieldB(word) == b
      && Extended(word) == extended && (Record(word) <==> record)
  {
    var high, last := (opcode * 32 + d) * 32 + a, if record then 1 else 0;
    FieldsOfD(opcode, d, a, b * 0x0800 + extended * 2 + last);
    var word := Formed(opcode, d, a, b * 0x0800 + extended * 2 + last);
    hide Opcode, FieldD, FieldA, Immediate, FieldB, Extended, Record;
    LowFields(high, b, extended, last, word);
    FieldsAre(word);
  }

  lemma LowFields(high: nat, b: nat, extended: nat, last: nat, word: nat)
    requires b < 32 && extended < 1024 && last < 2
    requires word == high * 0x1_0000 + b * 0x0800 + extended * 2 + last
    ensures word / 0x0800 % 32 == b && word / 2 % 1024 == extended && word % 2 == last
  {
    Quotient(high * 32 + b, 0x0800, extended * 2 + last);
    Quotient((high * 32 + b) * 1024 + extended, 2, last);
    Quotient(high, 32, b);
    Quotient(high * 32 + b, 1024, extended);
    assert word == (high * 32 + b) * 0x0800 + (extended * 2 + last);
    assert word == ((high * 32 + b) * 1024 + extended) * 2 + last;
  }

  lemma FieldsAre(word: Word)
    ensures FieldB(word) == word / 0x0800 % 32 && Extended(word) == word / 2 % 1024 && (Record(word) <==> word % 2 == 1)
  {
  }

  /** M form: MB and ME before the record bit. */
  lemma FieldsOfM(opcode: nat, d: nat, a: nat, b: nat, mb: nat, me: nat, record: bool)
    requires opcode < 64 && d < 32 && a < 32 && b < 32 && mb < 32 && me < 32
    ensures var word := Formed(opcode, d, a, b * 0x0800 + mb * 64 + me * 2 + if record then 1 else 0);
      && word < TWO_32 && Opcode(word) == opcode && FieldD(word) == d && FieldA(word) == a && FieldB(word) == b
      && FieldMb(word) == mb && FieldMe(word) == me && (Record(word) <==> record)
  {
    var word := Formed(opcode, d, a, b * 0x0800 + mb * 64 + me * 2 + if record then 1 else 0);
    FieldsOfX(opcode, d, a, b, mb * 32 + me, record);
    hide Opcode, FieldD, FieldA, FieldB, Record, Formed;
    ExtendedParts(word);
  }

  lemma ExtendedParts(word: Word)
    ensures Extended(word) == FieldMb(word) * 32 + FieldMe(word)
  {
    var x := word / 2;
    assert word / 64 == x / 32;
    Thirds(x / 1024, x / 32 % 32, x % 32, x);
  }

  lemma Thirds(high: nat, mid: nat, low: nat, x: nat)
    requires high == x / 1024 && mid == x / 32 % 32 && low == x % 32
    ensures x % 1024 == mid * 32 + low
  {
  }

  /** The value of sixteen bits in two's complement. */
  function S16(value: nat): (signed: int)
    requires value < 0x1_0000
    ensures -0x8000 <= signed < 0x8000 && signed % 0x1_0000 == value
  {
    if value >= 0x8000 then value - 0x1_0000 else value
  }

  function Wrap(value: int): Word {
    value % TWO_32
  }

  predicate IsControlFlow(word: Word) {
    Opcode(word) in {16, 17, 18, 19}
  }

  // ------------------------------------------------------------ the image

  datatype Image = Image(data: seq<nat>)

  ghost predicate Loaded(image: Image) {
    && |image.data| >= TEXT_END - IMAGE_BASE
    && forall i | 0 <= i < |image.data| :: image.data[i] < 256
  }

  function Bytes(data: seq<nat>, at: nat, size: nat): nat
    requires at + size <= |data|
  {
    if size == 0 then 0 else Bytes(data, at, size - 1) * 256 + data[at + size - 1]
  }

  lemma {:induction false} BytesBound(data: seq<nat>, at: nat, size: nat)
    requires at + size <= |data| && size <= 4 && forall i | 0 <= i < |data| :: data[i] < 256
    ensures Bytes(data, at, size) < if size == 0 then 1 else if size == 1 then 0x100 else if size == 2 then 0x1_0000
      else if size == 3 then 0x100_0000 else TWO_32
  {
    if size > 0 {
      BytesBound(data, at, size - 1);
    }
  }

  predicate InImage(address: int) {
    IMAGE_BASE <= address && address + 4 <= TEXT_END
  }

  function WordAt(image: Image, address: int): Word
    requires Loaded(image) && InImage(address)
  {
    BytesBound(image.data, address - IMAGE_BASE, 4);
    Bytes(image.data, address - IMAGE_BASE, 4)
  }

  /** The first byte of a word is its highest. */
  lemma WordBytes(image: Image, address: int)
    requires Loaded(image) && InImage(address)
    ensures var d, at := image.data, address - IMAGE_BASE;
      WordAt(image, address) == d[at] * 0x100_0000 + d[at + 1] * 0x1_0000 + d[at + 2] * 0x100 + d[at + 3]
  {
    var d, at := image.data, address - IMAGE_BASE;
    assert Bytes(d, at, 1) == Bytes(d, at, 0) * 256 + d[at];
    assert Bytes(d, at, 2) == Bytes(d, at, 1) * 256 + d[at + 1];
    assert Bytes(d, at, 3) == Bytes(d, at, 2) * 256 + d[at + 2];
  }

  /** Jump tables live in read-only data or inline in the code. */
  predicate Readable(address: int, size: nat) {
    IMAGE_BASE <= address && address + size <= TEXT_END
  }

  function ReadImage(image: Image, address: int, size: nat): Word
    requires Loaded(image) && Readable(address, size) && size <= 4
  {
    BytesBound(image.data, address - IMAGE_BASE, size);
    Bytes(image.data, address - IMAGE_BASE, size)
  }

  // ------------------------------------------------------------ the machine

  datatype Field = Field(lt: bool, gt: bool, eq: bool, so: bool)

  /** Registers a block of code works on; memory outside the read-only image is arbitrary. */
  datatype State = State(gpr: seq<Word>, cr: seq<Field>, ctr: Word)

  predicate ValidState(s: State) {
    |s.gpr| == 32 && |s.cr| == 8
  }

  /** rA, or zero for r0, as address and immediate forms read it. */
  function Base(s: State, a: nat): Word
    requires ValidState(s) && a < 32
  {
    if a == 0 then 0 else s.gpr[a]
  }

  ghost predicate OrOf(v: Word, x: nat, y: nat) {
    forall k: nat | k < 32 :: Bit(v, k) <==> Bit(x, k) || Bit(y, k)
  }

  ghost predicate RotatedMasked(v: Word, x: nat, sh: nat, mb: nat, me: nat) {
    forall k: nat | k < 32 :: Bit(v, k) <==> Bit(x, (k + 32 - sh) % 32) && InMask(mb, me, k)
  }

  // ------------------------------------------------------------ instructions

  /** What an instruction is, as far as it is followed. Reserved bits are ignored. */
  datatype Operation =
    | AddImmediate(scale: nat)               // addi, addis
    | OrImmediate                            // ori
    | RotateMask                             // rlwinm
    | LoadIndexed(size: nat)                 // lwzx, lhzx, lbzx
    | AddRegisters                           // add
    | OrRegisters                            // or
    | MoveToCtr                              // mtctr
    | CompareLogical                         // cmplwi
    | Puts(r: nat, record: Option<nat>)      // some word into one register, and the record field
    | PutsUpdating                           // a load with update: some word into rD, the address into rA
    | Updates                                // another access with update: the address into rA
    | Compares(field: nat)                   // some condition field
    | Silent                                 // none of the registers followed

  /** Registers and fields there are. */
  predicate Fits(op: Operation) {
    match op
    case Puts(r, record) => r < 32 && (record.Some? ==> record.value < 8)
    case Compares(field) => field < 8
    case LoadIndexed(size) => size <= 4
    case _ => true
  }

  function Recorded(word: Word): Option<nat> {
    if Record(word) then Some(0) else None
  }

  /** The instructions of Book I but for branches, and of the storage and vector facilities, by
      primary opcode; None for what is not followed at all. */
  function Decode(word: Word): (op: Option<Operation>)
    ensures op.Some? ==> Fits(op.value)
  {
    var d, a := FieldD(word), FieldA(word);
    match Opcode(word)
    case 4 => Some(Compares(6))                                  // vector; some compares set CR6
    case 7 => Some(Puts(d, None))                                // mulli
    case 8 => Some(Puts(d, None))                                // subfic
    case 10 =>                                                   // cmplwi, cmpldi
      if word / 0x0020_0000 % 2 == 0 then Some(CompareLogical) else Some(Compares(d / 4))
    case 11 => Some(Compares(d / 4))                             // cmpwi, cmpdi
    case 12 => Some(Puts(d, None))                               // addic
    case 13 => Some(Puts(d, Some(0)))                            // addic.
    case 14 => Some(AddImmediate(1))                             // addi
    case 15 => Some(AddImmediate(0x1_0000))                      // addis
    case 20 => Some(Puts(a, Recorded(word)))                     // rlwimi
    case 21 => if Record(word) then Some(Puts(a, Some(0))) else Some(RotateMask)
    case 23 => Some(Puts(a, Recorded(word)))                     // rlwnm
    case 24 => Some(OrImmediate)                                 // ori
    case 25 => Some(Puts(a, None))                               // oris
    case 26 => Some(Puts(a, None))                               // xori
    case 27 => Some(Puts(a, None))                               // xoris
    case 28 => Some(Puts(a, Some(0)))                            // andi.
    case 29 => Some(Puts(a, Some(0)))                            // andis.
    case 30 => Some(Puts(a, Recorded(word)))                     // rld*
    case 31 => DecodeX(word)
    case 32 => Some(Puts(d, None))                               // lwz
    case 33 => Some(PutsUpdating)                          // lwzu
    case 34 => Some(Puts(d, None))                               // lbz
    case 35 => Some(PutsUpdating)                          // lbzu
    case 36 => Some(Silent)                                      // stw
    case 37 => Some(Updates)                                  // stwu
    case 38 => Some(Silent)                                      // stb
    case 39 => Some(Updates)                                  // stbu
    case 40 => Some(Puts(d, None))                               // lhz
    case 41 => Some(PutsUpdating)                          // lhzu
    case 42 => Some(Puts(d, None))                               // lha
    case 43 => Some(PutsUpdating)                          // lhau
    case 44 => Some(Silent)                                      // sth
    case 45 => Some(Updates)                                  // sthu
    case 48 => Some(Silent)                                      // lfs
    case 49 => Some(Updates)                                  // lfsu
    case 50 => Some(Silent)                                      // lfd
    case 51 => Some(Updates)                                  // lfdu
    case 52 => Some(Silent)                                      // stfs
    case 53 => Some(Updates)                                  // stfsu
    case 54 => Some(Silent)                                      // stfd
    case 55 => Some(Updates)                                  // stfdu
    case 58 =>                                                   // ldu; ld, lwa
      if word % 4 == 1 then Some(PutsUpdating) else Some(Puts(d, None))
    case 59 => if Record(word) then Some(Compares(1)) else Some(Silent)
    case 62 => if word % 4 == 1 then Some(Updates) else Some(Silent)     // stdu; std
    case 63 =>
      if Extended(word) in {0, 32, 64} then Some(Compares(d / 4))           // fcmpu, fcmpo, mcrfs
      else if Record(word) then Some(Compares(1)) else Some(Silent)
    case _ => None
  }

  /** Primary opcode 31. */
  function DecodeX(word: Word): (op: Option<Operation>)
    ensures op.Some? ==> Fits(op.value)
  {
    var d, a := FieldD(word), FieldA(word);
    match Extended(word)
    case 0 => Some(Compares(d / 4))                              // cmp
    case 32 => Some(Compares(d / 4))                             // cmpl
    case 23 => Some(LoadIndexed(4))                              // lwzx
    case 279 => Some(LoadIndexed(2))                             // lhzx
    case 87 => Some(LoadIndexed(1))                              // lbzx
    case 343 | 341 | 21 => Some(Puts(d, None))                   // lhax, lwax, ldx
    case 790 | 534 => Some(Puts(d, None))                        // lhbrx, lwbrx
    case 20 | 84 => Some(Puts(d, None))                          // lwarx, ldarx
    case 55 | 119 | 311 => Some(PutsUpdating)              // lwzux, lbzux, lhzux
    case 375 | 373 | 53 => Some(PutsUpdating)              // lhaux, lwaux, ldux
    case 151 | 215 | 407 | 149 => Some(Silent)                   // stwx, stbx, sthx, stdx
    case 918 | 662 => Some(Silent)                               // sthbrx, stwbrx
    case 183 | 247 | 439 | 181 => Some(Updates)               // stwux, stbux, sthux, stdux
    case 150 | 214 => Some(Compares(0))                          // stwcx., stdcx.
    case 535 | 599 | 663 | 727 | 983 => Some(Silent)             // lfsx, lfdx, stfsx, stfdx, stfiwx
    case 695 | 759 => Some(Updates)                           // stfsux, stfdux
    case 28 | 60 | 412 | 316 => Some(Puts(a, Recorded(word)))    // and, andc, orc, xor
    case 124 | 476 | 284 => Some(Puts(a, Recorded(word)))        // nor, nand, eqv
    case 444 => if Record(word) then Some(Puts(a, Some(0))) else Some(OrRegisters)
    case 24 | 536 | 792 | 824 => Some(Puts(a, Recorded(word)))   // slw, srw, sraw, srawi
    case 27 | 539 | 794 | 826 | 827 => Some(Puts(a, Recorded(word)))        // sld, srd, srad, sradi
    case 922 | 954 | 986 => Some(Puts(a, Recorded(word)))        // extsh, extsb, extsw
    case 26 | 58 => Some(Puts(a, Recorded(word)))                // cntlzw, cntlzd
    case 339 | 19 | 371 => Some(Puts(d, None))                   // mfspr, mfcr, mftb
    case 467 =>                                                  // mtspr: SPR 9 is CTR
      if a == 9 && FieldB(word) == 0 then Some(MoveToCtr) else Some(Silent)
    case 54 | 86 | 246 | 278 | 470 | 1014 => Some(Silent)        // dcbst, dcbf, dcbtst, dcbt, dcbi, dcbz
    case 598 | 854 => Some(Silent)                               // sync, eieio
    case 7 | 39 | 71 | 103 | 359 => Some(Silent)                 // lvebx, lvehx, lvewx, lvx, lvxl
    case 135 | 167 | 231 => Some(Silent)                         // stvebx, stvehx, stvx
    case 519 | 551 | 775 | 807 => Some(Silent)                   // lvlx, lvrx, lvlxl, lvrxl
    case 647 | 679 => Some(Silent)                               // stvlx, stvrx
    case 711 | 743 | 839 | 871 => Some(Silent)                   // not assigned: control does not go on
    case _ => DecodeXO(word)
  }

  /** XO-form arithmetic, where the bit above the extended opcode asks for overflow. */
  function DecodeXO(word: Word): (op: Option<Operation>)
    ensures op.Some? ==> Fits(op.value)
  {
    var d := FieldD(word);
    match Extended(word) % 512
    case 266 =>                                                  // add
      if Extended(word) == 266 && !Record(word) then Some(AddRegisters) else Some(Puts(d, Recorded(word)))
    case 10 | 138 | 202 | 234 => Some(Puts(d, Recorded(word)))   // addc, adde, addze, addme
    case 40 | 8 | 136 => Some(Puts(d, Recorded(word)))           // subf, subfc, subfe
    case 200 | 232 | 104 => Some(Puts(d, Recorded(word)))        // subfze, subfme, neg
    case 235 | 75 | 11 => Some(Puts(d, Recorded(word)))          // mullw, mulhw, mulhwu
    case 233 | 73 | 9 => Some(Puts(d, Recorded(word)))           // mulld, mulhd, mulhdu
    case 491 | 459 | 489 | 457 => Some(Puts(d, Recorded(word)))  // divw, divwu, divd, divdu
    case _ => None
  }

  // ------------------------------------------------------------ steps

  /** value is what the instruction puts in register r, and nothing else changes. */
  ghost predicate Sets(s: State, s': State, r: nat, value: Word)
    requires ValidState(s) && r < 32
  {
    s' == s.(gpr := s.gpr[r := value])
  }

  /** The address of an access with update: D, DS and X forms. */
  function EffectiveAddress(word: Word, s: State): Word
    requires ValidState(s)
  {
    if Opcode(word) == 31 then Wrap((s.gpr[FieldA(word)] as int) + s.gpr[FieldB(word)])
    else if Opcode(word) in {58, 62} then Wrap((s.gpr[FieldA(word)] as int) + S16(Immediate(word) / 4 * 4))
    else Wrap((s.gpr[FieldA(word)] as int) + S16(Immediate(word)))
  }

  /** The registers and fields after an instruction; a result that is not followed is any. */
  ghost predicate Does(image: Image, word: Word, op: Operation, s: State, s': State)
    requires Loaded(image) && ValidState(s) && ValidState(s') && Decode(word) == Some(op)
  {
    var d, a, b := FieldD(word), FieldA(word), FieldB(word);
    match op
    case AddImmediate(scale) => Sets(s, s', d, Wrap((Base(s, a) as int) + S16(Immediate(word)) * scale))
    case OrImmediate => exists v: Word :: OrOf(v, s.gpr[d], Immediate(word)) && Sets(s, s', a, v)
    case RotateMask =>
      exists v: Word :: RotatedMasked(v, s.gpr[d], b, FieldMb(word), FieldMe(word)) && Sets(s, s', a, v)
    case LoadIndexed(size) =>
      var address := Wrap((Base(s, a) as int) + s.gpr[b]);
      if Readable(address, size) then Sets(s, s', d, ReadImage(image, address, size))
      else Sets(s, s', d, s'.gpr[d])
    case AddRegisters => Sets(s, s', d, Wrap((s.gpr[a] as int) + s.gpr[b]))
    case OrRegisters => exists v: Word :: OrOf(v, s.gpr[d], s.gpr[b]) && Sets(s, s', a, v)
    case MoveToCtr => s' == s.(ctr := s.gpr[d])
    case CompareLogical =>
      var value, i := s.gpr[a], Immediate(word);
      s' == s.(cr := s.cr[d / 4 := Field(value < i, value > i, value == i, s'.cr[d / 4].so)])
    case Puts(r, record) =>
      s' == s.(gpr := s.gpr[r := s'.gpr[r]],
               cr := if record.Some? then s.cr[record.value := s'.cr[record.value]] else s.cr)
    case PutsUpdating => s' == s.(gpr := s.gpr[d := s'.gpr[d]][a := EffectiveAddress(word, s)])
    case Updates => s' == s.(gpr := s.gpr[a := EffectiveAddress(word, s)])
    case Compares(field) => s' == s.(cr := s.cr[field := s'.cr[field]])
    case Silent => s' == s
  }

  /** One instruction other than a branch. What is not followed may do anything. */
  ghost predicate Step(image: Image, word: Word, s: State, s': State)
    requires Loaded(image) && ValidState(s)
  {
    ValidState(s') && match Decode(word)
      case Some(op) => Does(image, word, op, s, s')
      case None => true
  }

  // ------------------------------------------------------------ branches (Book I, section 2.4)

  /** The bits of a condition field, as branches number them. */
  predicate CrBit(f: Field, k: nat) {
    match k
    case 0 => f.lt
    case 1 => f.gt
    case 2 => f.eq
    case _ => f.so
  }

  /** A branch on a condition alone (BO 12) is taken exactly when the bit BI of CR is set. */
  predicate Takes(word: Word, s: State)
    requires ValidState(s)
  {
    CrBit(s.cr[FieldA(word) / 4], FieldA(word) % 4)
  }

  /** blr and bctr: bclr and bcctr that always branch and do not link. */
  lemma ReturnWords()
    ensures BLR == Formed(19, 20, 0, 16 * 2) && BCTR == Formed(19, 20, 0, 528 * 2)
  {
  }

  /** A b or bc: the displacement in instructions, whether it is from zero, whether it links. */
  datatype Jump = Jump(displacement: int, absolute: bool, link: bool)

  function TwosComplement(value: nat, half: nat): int {
    if value < half then value else value - 2 * half
  }

  /** I-form b and B-form bc: LI and BD hold words, and AA and LK follow them. */
  function JumpOf(word: Word): Option<Jump> {
    var absolute, link := word / 2 % 2 == 1, word % 2 == 1;
    match Opcode(word)
    case 18 => Some(Jump(TwosComplement(word / 4 % 0x0100_0000, 0x0080_0000), absolute, link))
    case 16 => Some(Jump(TwosComplement(word / 4 % 0x4000, 0x2000), absolute, link))
    case _ => None
  }

  /** The next instruction address of a branch that is taken. */
  function NextOf(jump: Jump, address: int): Word {
    Wrap(if jump.absolute then 4 * jump.displacement else address + 4 * jump.displacement)
  }

  /** Where an unlinked b or bc goes when it is taken. */
  function Destination(word: Word, address: int): Option<Word> {
    match JumpOf(word)
    case Some(jump) => if jump.link then None else Some(NextOf(jump, address))
    case None => None
  }

  /** The I-form word of a jump. */
  function FarWord(offset: int, absolute: bool, link: bool): Word
    requires -0x0200_0000 <= offset < 0x0200_0000 && offset % 4 == 0
  {
    18 * 0x0400_0000 + offset % 0x0400_0000 + (if absolute then 2 else 0) + if link then 1 else 0
  }

  /** The B-form word of a jump on a condition. */
  function NearWord(bo: nat, bi: nat, offset: int, absolute: bool, link: bool): Word
    requires bo < 32 && bi < 32 && -0x8000 <= offset < 0x8000 && offset % 4 == 0
  {
    16 * 0x0400_0000 + bo * 0x0020_0000 + bi * 0x0001_0000 + offset % 0x1_0000
      + (if absolute then 2 else 0) + if link then 1 else 0
  }

  lemma FarJump(offset: int, absolute: bool, link: bool)
    requires -0x0200_0000 <= offset < 0x0200_0000 && offset % 4 == 0
    ensures Opcode(FarWord(offset, absolute, link)) == 18
    ensures JumpOf(FarWord(offset, absolute, link)) == Some(Jump(offset / 4, absolute, link))
  {
    var q := if offset >= 0 then offset / 4 else offset / 4 + 0x0100_0000;
    Unsigned(offset, 0x0100_0000);
    assert offset % 0x0400_0000 == 4 * q;
    LowBits(18 * 0x0100_0000 + q, absolute, link);
    Quotient(18, 0x0100_0000, q);
    assert FarWord(offset, absolute, link) ==
      4 * (18 * 0x0100_0000 + q) + (if absolute then 2 else 0) + if link then 1 else 0;
    FarFields(FarWord(offset, absolute, link), q);
    hide FarWord, Opcode;
  }

  lemma Unsigned(offset: int, count: nat)
    requires offset % 4 == 0 && count > 0 && -2 * count <= offset < 2 * count
    ensures offset == 4 * (offset / 4)
    ensures offset % (4 * count) == if offset >= 0 then offset else offset + 4 * count
  {
    if offset >= 0 {
      Quotient(0, 4 * count, offset);
    } else {
      Quotient(0, 4 * count, offset + 4 * count);
      SameRemainder(offset, 4 * count);
    }
  }

  lemma SameRemainder(x: int, n: nat)
    requires 0 <= x + n < n
    ensures x % n == x + n
  {
    var q, r := x / n, x % n;
    assert x == q * n + r && 0 <= r < n;
    assert (q + 1) * n == x + n - r;
    if q != -1 {
      Apart(q + 1, n);
      assert false;
    }
  }

  lemma LowBits(q: nat, absolute: bool, link: bool)
    ensures var word := 4 * q + (if absolute then 2 else 0) + if link then 1 else 0;
      word / 4 == q && (word / 2 % 2 == 1 <==> absolute) && (word % 2 == 1 <==> link)
  {
  }

  lemma FarFields(word: Word, q: nat)
    requires word / 4 == 18 * 0x0100_0000 + q && q < 0x0100_0000
    ensures Opcode(word) == 18 && word / 4 % 0x0100_0000 == q
  {
    Quotient(18, 0x0100_0000, q);
    assert word / 0x0400_0000 == word / 4 / 0x0100_0000;
  }

  lemma NearJump(bo: nat, bi: nat, offset: int, absolute: bool, link: bool)
    requires bo < 32 && bi < 32 && -0x8000 <= offset < 0x8000 && offset % 4 == 0
    ensures Opcode(NearWord(bo, bi, offset, absolute, link)) == 16
    ensures JumpOf(NearWord(bo, bi, offset, absolute, link)) == Some(Jump(offset / 4, absolute, link))
  {
    var q := if offset >= 0 then offset / 4 else offset / 4 + 0x4000;
    Unsigned(offset, 0x4000);
    var high := (16 * 32 + bo) * 32 + bi;
    assert offset % 0x1_0000 == 4 * q;
    LowBits(high * 0x4000 + q, absolute, link);
    assert NearWord(bo, bi, offset, absolute, link) ==
      4 * (high * 0x4000 + q) + (if absolute then 2 else 0) + if link then 1 else 0;
    NearFields(NearWord(bo, bi, offset, absolute, link), high, q, bo * 32 + bi);
    hide NearWord, Opcode;
  }

  lemma NearFields(word: Word, high: nat, q: nat, low: nat)
    requires high == 16 * 1024 + low && low < 1024 && word / 4 == high * 0x4000 + q && q < 0x4000
    ensures Opcode(word) == 16 && word / 4 % 0x4000 == q
  {
    Quotient(high, 0x4000, q);
    Quotient(16, 1024, low);
    assert word / 0x0400_0000 == word / 4 / 0x4000 / 1024;
  }
}
